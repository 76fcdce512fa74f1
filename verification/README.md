# Auth service session state, modelled in Dafny

This project models the session-state bookkeeping of the `auth-service`:

- the three in-memory stores: users keyed by email, one two-factor challenge per email, and the banned-token set;
- the `Email` and `Password` value types;
- token issuance and validation, and the auth cookie;
- the `signup` and `logout` request handlers, run step by step against those stores;
- the mapping from `AuthAPIError` to an HTTP status and a JSON error body.

One module per source file:

| module | file | form |
|---|---|---|
| `Passwords` | `password.dfy` | functions |
| `Emails` | `email.dfy` | functions |
| `Users` | `user.dfy` | the `User` record |
| `UserStores` | `hashmap_user_store.dfy` | class `HashmapUserStore` with a `users` map |
| `TwoFACodeStores` | `hashmap_two_fa_code_store.dfy` | class `HashmapTwoFACodeStore` with a `codes` map |
| `BannedTokenStores` | `hashset_banned_token_store.dfy` | class `HashsetBannedTokenStore` with a `tokens` set |
| `AuthTokens` | `auth.dfy` | functions |
| `SignupRoute` | `signup.dfy` | method over the user store |
| `LogoutRoute` | `logout.dfy` | method over the cookie jar and the ledger |
| `Errors`, `ErrorResponses` | `error.dfy`, `error_response.dfy` | datatype and function |
| `Common`, `Cookies` | `common.dfy`, `cookies.dfy` | supporting types |

Store operations that take `&mut self` are methods with `modifies this`. Their contracts give the whole new map or set in terms of the old one.

Store operations that take `&self` are functions with `reads this`. So they cannot change anything, and `validate_token` (a pure function here) can call `contains_token`.

The client methods `AddThenLookUp`, `SecondChallengeReplacesFirst`, `ChallengeIsSingleUse`, `BanIsPermanent`, `SignupTwice` and `SessionLifecycle` each start from a fresh store. They replay the scenarios of the module and API tests, and their postconditions are what those tests assert.

Foreign code is passed in as parameters:

- JWT signing and verification are the function parameters `Encoder` and `Decoder`. A `Decoder` only has to honour the default expiry check: it never accepts claims that expired more than 60 seconds before `now`. `RoundTrips` states the one property the JWT library is trusted for: decoding what was encoded gives back the same claims until 60 seconds after they expire.
- The `validator` crate's email check is an `EmailValidator`: any predicate that accepts only strings with an '@' that has at least one character on each side.
- The wall clock is an integer parameter `now`, in unix seconds.

Notes on the source:

- `signup.rs:67` builds `AuthAPIError::UnexpectedError` with no payload, but `error.rs:33` declares `UnexpectedError(Report)`. The model has one variant that carries an opaque `Report`. `Signup` passes a fixed report there.
- `logout.rs:49` wraps the ledger's error itself into the report. The model passes on the report inside the ledger's error instead. The response does not depend on the cause (`CauseIsNotExposed`), so nothing a client sees differs.
- The minimum of 8 is compared with Rust's `len()`, which counts bytes of the UTF-8 encoding, not characters. `Passwords.Utf8Len` models the byte count. A 2-character string of 4-byte characters is accepted, and for ASCII input the rule is exactly "8 characters or more" (`ParseAscii`).

## Model

| member | source | states |
|---|---|---|
| `Passwords.Utf8Len` | auth-service/src/domain/password.rs:39-41 | the byte length `len()` compares lies between the character count and four times it |
| `Passwords.AsciiUtf8Len` | auth-service/src/domain/password.rs:39-41 | on ASCII text the byte length equals the number of characters |
| `Passwords.ValidatePassword` | auth-service/src/domain/password.rs:39-41 | the byte-length rule accepts every string of 8 or more characters and rejects every string of fewer than 2 |
| `Passwords.Password.AsRef` | auth-service/src/domain/password.rs:43-46 | gives back exactly the wrapped string |
| `Passwords.Parse` | auth-service/src/domain/password.rs:30-41 | accepted iff the UTF-8 length is at least 8; on success `as_ref` gives back exactly the input; 8 or more characters are always accepted; fewer than 2 are always rejected |
| `Passwords.ParseAscii` | auth-service/src/domain/password.rs:30-41 | for ASCII input, accepted iff it has at least 8 characters |
| `Passwords.ParseRejectsShortPasswords` | auth-service/src/domain/password.rs:56-66 | the empty string and "123456" are rejected |
| `Passwords.Password.Eq` | auth-service/src/domain/password.rs:23-27 | equality on raw strings coincides with value identity |
| `Emails.Parse` | auth-service/src/domain/email.rs:40-49 | accepted iff the validator accepts; on success `as_ref` gives back exactly the input, which has an '@' with a user part and a domain |
| `Emails.Email.AsRef` | auth-service/src/domain/email.rs:52-56 | gives back exactly the wrapped string |
| `Emails.Email.Hash` | auth-service/src/domain/email.rs:31-35 | the hash is the hasher applied to the raw string alone |
| `Emails.Email.Eq` | auth-service/src/domain/email.rs:25-29 | equality on raw strings coincides with value identity |
| `Emails.HashAgreesWithEq` | auth-service/src/domain/email.rs:31-37 | equal emails hash equally under every hasher, because only the raw string is hashed |
| `Emails.EqIsCaseSensitive` | auth-service/src/domain/email.rs:25-29 | two addresses that differ only in letter case are not equal |
| `Emails.ParseRejectsMalformed` | auth-service/src/domain/email.rs:65-81 | for every validator, "", "u.org" and "@me.org" are rejected |
| `UserStores.KeyedByEmailIsUnique` | auth-service/src/services/data_stores/hashmap_user_store.rs:28-33 | in a store where every user is filed under its own email, two entries whose users share an email are the same entry |
| `UserStores.HashmapUserStore.constructor` | auth-service/src/services/data_stores/hashmap_user_store.rs:21-24 | the default store is empty and keyed by email |
| `UserStores.HashmapUserStore.AddUser` | auth-service/src/services/data_stores/hashmap_user_store.rs:28-34 | an email already present gives `UserAlreadyExists` and no change; otherwise `Ok` and the map gains exactly this user under its email; keying by email is preserved |
| `UserStores.HashmapUserStore.GetUser` | auth-service/src/services/data_stores/hashmap_user_store.rs:36-41 | `Ok` iff the email is stored, with the stored user, whose email is the one asked for; otherwise `UserNotFound`; reads only |
| `UserStores.HashmapUserStore.ValidateUser` | auth-service/src/services/data_stores/hashmap_user_store.rs:43-58 | `Ok` iff stored with an equal password; `InvalidCredentials` iff stored with a different password; `UserNotFound` iff absent; reads only |
| `UserStores.AddThenLookUp` | auth-service/src/services/data_stores/hashmap_user_store.rs:66-139 | the first add succeeds and a duplicate is refused; lookup and credential checks then answer `Ok`, `UserNotFound` or `InvalidCredentials` as in the module tests |
| `TwoFACodeStores.HashmapTwoFACodeStore.constructor` | auth-service/src/services/data_stores/hashmap_two_fa_code_store.rs:23-26 | the default store holds no challenge |
| `TwoFACodeStores.HashmapTwoFACodeStore.AddCode` | auth-service/src/services/data_stores/hashmap_two_fa_code_store.rs:30-38 | always `Ok`; the pair for the email is replaced (last write wins), no other entry changes, and exactly the new pair is redeemable for that email |
| `TwoFACodeStores.HashmapTwoFACodeStore.RemoveCode` | auth-service/src/services/data_stores/hashmap_two_fa_code_store.rs:40-45 | `Ok` iff a pair was stored, `LoginAttemptIdNotFound` with no change otherwise; afterwards only that entry is gone and no pair is redeemable for the email |
| `TwoFACodeStores.HashmapTwoFACodeStore.GetCode` | auth-service/src/services/data_stores/hashmap_two_fa_code_store.rs:47-55 | the stored pair iff present, `LoginAttemptIdNotFound` otherwise; reads only |
| `TwoFACodeStores.SecondChallengeReplacesFirst` | auth-service/src/services/data_stores/hashmap_two_fa_code_store.rs:30-38 | after a second challenge for the same email, the second pair is accepted and the first only if it equals the second |
| `TwoFACodeStores.ChallengeIsSingleUse` | auth-service/src/services/data_stores/hashmap_two_fa_code_store.rs:40-55 | a stored challenge is accepted once; after removal it is refused, `get_code` reports `LoginAttemptIdNotFound` and a second removal fails |
| `BannedTokenStores.HashsetBannedTokenStore.constructor` | auth-service/src/services/data_stores/hashset_banned_token_store.rs:22-25 | the default ledger bans nothing |
| `BannedTokenStores.HashsetBannedTokenStore.AddToken` | auth-service/src/services/data_stores/hashset_banned_token_store.rs:29-32 | always `Ok`; the set grows by exactly the token, so an already-banned token leaves it unchanged |
| `BannedTokenStores.HashsetBannedTokenStore.ContainsToken` | auth-service/src/services/data_stores/hashset_banned_token_store.rs:34-36 | never fails; true iff the token was added; reads only |
| `BannedTokenStores.BanIsPermanent` | auth-service/src/services/data_stores/hashset_banned_token_store.rs:22-37 | once banned, a token stays banned through further bans, and banning it again succeeds |
| `AuthTokens.Expiry` | auth-service/src/utils/auth.rs:55-66 | issuance succeeds iff now + 900 is representable and non-negative, and then the expiry is exactly now + 900, later than now; it never wraps |
| `AuthTokens.IssueClaims` | auth-service/src/utils/auth.rs:51-70 | the claims name the email's raw string as subject and expire at now + `TOKEN_TTL_SECONDS` |
| `AuthTokens.GenerateAuthToken` | auth-service/src/utils/auth.rs:53-73 | when the claims can be issued, the result is exactly the encoder's output for them, success or failure; otherwise it is an error |
| `AuthTokens.CreateAuthCookie` | auth-service/src/utils/auth.rs:34-43 | the cookie is named `jwt`, carries the token, and has path `/`, HttpOnly and SameSite=Lax |
| `AuthTokens.GenerateAuthCookie` | auth-service/src/utils/auth.rs:28-32 | succeeds iff a token is generated, and then the cookie carries that token with the fixed attributes |
| `AuthTokens.CheckThenDecode` | auth-service/src/utils/auth.rs:80-95 | a ledger error is propagated; a banned token is refused; an unbanned token gets exactly the decoder's verdict; accepted claims were unbanned and not expired beyond the leeway |
| `AuthTokens.ValidateToken` | auth-service/src/utils/auth.rs:75-96 | a banned token is refused; otherwise the result is exactly the decoder's; it only reads the ledger |
| `AuthTokens.BannedTokenIsNotDecoded` | auth-service/src/utils/auth.rs:80-84 | for a banned token the result does not depend on the decoder |
| `AuthTokens.FreshTokenValidates` | auth-service/src/utils/auth.rs:142-156 | a freshly generated token that is not banned validates before it expires, with subject the email and expiry later than issuance + 8 minutes |
| `SignupRoute.Signup` | auth-service/src/routes/signup.rs:52-75 | an unparsable email, then an unparsable password, give `InvalidCredentials`; a known email gives `UserAlreadyExists`; none of these changes the store; otherwise the result is 201 with "User created successfully!" and the store gains exactly the new user |
| `SignupRoute.SignupTwice` | auth-service/tests/api/postgres/signup.rs:94-115 | the same valid signup twice: created, then `UserAlreadyExists` |
| `LogoutRoute.Logout` | auth-service/src/routes/logout.rs:26-55 | no `jwt` cookie gives `MissingToken`; a token that fails validation gives `InvalidToken`; on any error the jar is unchanged, and before banning nothing is banned; on success the token is banned, the cookie is removed and the status is 200; the ledger only grows |
| `LogoutRoute.SessionLifecycle` | auth-service/tests/api/data_structures/logout.rs:95-140 | an issued cookie validates; logout succeeds and clears it; the token is then refused, resubmitting it gives `InvalidToken`, and logging out with the cleared jar gives `MissingToken` |
| `ErrorResponses.IntoResponse` | auth-service/src/lib.rs:101-124 | total over the six variants: 409 exactly for `UserAlreadyExists`, 400 exactly for `InvalidCredentials` and `MissingToken`, 401 exactly for `IncorrectCredentials` and `InvalidToken`, 500 exactly for `UnexpectedError`; the message is never empty |
| `ErrorResponses.MessageDeterminesVariant` | auth-service/src/lib.rs:105-116 | different variants have different messages |
| `ErrorResponses.CauseIsNotExposed` | auth-service/src/lib.rs:111-113 | `UnexpectedError` gives the same response whatever its cause |
| `ErrorResponses.ResponseTable` | auth-service/src/lib.rs:105-116 | the exact status and message of each variant |

## Left out

- Concurrency: the `Arc<RwLock<…>>` sharing and async execution are not modelled. Every operation runs sequentially and holds its lock for its whole duration.
- JWT encoding and decoding, the `validator` crate and `Utc::now()` are foreign code. They are parameters, as described above. That a token has three dot-separated segments is a property of the JWT library and is not modelled.
- `Secret<String>` wrapping is not modelled. It only hides the value from debug output and zeroes it on drop; the model works on the plain string.
- `AuthTokens.Expiry`: `MAX_TIMESTAMP` (8210298412799) is the end of chrono's range in releases where `NaiveDate::MAX` is 31 December 262143. Releases that end the range at 31 December 262142 have the limit 8210266876799. No chrono version is fixed here, and with that limit `checked_add_signed` already fails for `now` between 8210266875900 and 8210298411899, where the model still issues an expiry.
- `Duration::try_seconds(900)` always succeeds, so it is not modelled as a failure point. The cast of the expiry to `usize` assumes a 64-bit target, where only a negative timestamp fails.
- `log_error_chain` in `lib.rs` only writes the error's causal chain to the log, so it is not modelled. Application building and running, `get_postgres_pool` and `get_redis_client` are framework and network wiring.
- The Redis stores are not modelled. Neither is the Postgres user store, which is not part of this model. They talk to external servers with their own clocks, and the Redis `remove_code` answers `Ok` for an absent key, unlike the in-memory store.
- The login, verify-2fa and verify-token handlers, `user.rs`, and the parsing of `LoginAttemptId` and `TwoFACode` are not part of this model. `HashmapTwoFACodeStore.Redeemable` states only the check the second-factor step makes against the store: the stored pair equals the presented pair.
- `CookieJar.Remove` models the removal as the cookie no longer being in the jar. The `Set-Cookie` header that clears the cookie in the client is not modelled.
- `LogoutRoute.Logout`: with the in-memory ledger `add_token` never fails, so the `UnexpectedError` branch cannot be reached. For it the contract only states that the jar is returned unchanged.
- `SignupRoute.Signup`: the `add_user` failure branch cannot be reached, because the email was just looked up and found absent under the same lock. The contract does not state that branch's `UnexpectedError` result.
