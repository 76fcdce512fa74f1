/**
 * The logout use-case: take the auth cookie, validate its token, ban the
 * token and clear the cookie.
 */
module LogoutRoute {
  import opened Common
  import opened Errors
  import opened Cookies
  import opened AuthTokens
  import Emails
  import BannedTokenStores

  /** The token the auth cookie of `jar` carries. */
  function AuthToken(jar: CookieJar): string
    requires jar.Get(JWT_COOKIE_NAME).Some?
  {
    jar.Get(JWT_COOKIE_NAME).value.value
  }

  /**
   * `logout`. Without an auth cookie: `MissingToken`. With a token that
   * does not validate: `InvalidToken`. In both cases, and when banning
   * fails, the jar is returned unchanged and nothing is banned. Otherwise the
   * token is banned, the auth cookie is removed from the jar and the status
   * is 200.
   */
  method Logout(jar: CookieJar, store: BannedTokenStores.HashsetBannedTokenStore, decode: Decoder, now: int)
    returns (jarOut: CookieJar, r: Result<StatusCode, AuthAPIError>)
    modifies store
    ensures jar.Get(JWT_COOKIE_NAME).None? ==>
      r == Err(MissingToken) && jarOut == jar && store.tokens == old(store.tokens)
    ensures jar.Get(JWT_COOKIE_NAME).Some? && old(ValidateToken(AuthToken(jar), store, decode, now)).Err? ==>
      r == Err(InvalidToken) && jarOut == jar && store.tokens == old(store.tokens)
    ensures jar.Get(JWT_COOKIE_NAME).Some? && old(ValidateToken(AuthToken(jar), store, decode, now)).Ok? ==>
      r == Ok(OK) && jarOut == jar.Remove(Named(JWT_COOKIE_NAME)) &&
      store.tokens == old(store.tokens) + {AuthToken(jar)}
    ensures r.Err? ==> jarOut == jar
    ensures r.Ok? ==> jarOut.Get(JWT_COOKIE_NAME).None? && AuthToken(jar) in store.tokens
    ensures old(store.tokens) <= store.tokens
  {
    var cookie := jar.Get(JWT_COOKIE_NAME);
    if cookie.None? {
      jarOut, r := jar, Err(MissingToken);
    } else {
      var token := cookie.value.value;
      var claims := ValidateToken(token, store, decode, now);
      if claims.Err? {
        jarOut, r := jar, Err(InvalidToken);
      } else {
        var added := store.AddToken(token);
        match added
        case Err(e) =>
          jarOut, r := jar, Err(AuthAPIError.UnexpectedError(e.cause));
        case Ok(_) =>
          jarOut, r := jar.Remove(Named(JWT_COOKIE_NAME)), Ok(OK);
      }
    }
  }

  /**
   * A whole session against a fresh ledger: the issued cookie validates;
   * logout succeeds and clears it; afterwards the token is refused, logging
   * out again with the old cookie gives `InvalidToken` and logging out with
   * the cleared jar gives `MissingToken`.
   */
  method SessionLifecycle(email: Emails.Email, issuedAt: int, now: int, encode: Encoder, decode: Decoder)
    returns (validBefore: bool, logout: Result<StatusCode, AuthAPIError>, cleared: CookieJar,
             validAfter: bool, resubmitted: Result<StatusCode, AuthAPIError>,
             again: Result<StatusCode, AuthAPIError>)
    requires RoundTrips(encode, decode)
    requires GenerateAuthCookie(email, issuedAt, encode).Ok?
    requires now <= issuedAt + TOKEN_TTL_SECONDS
    ensures validBefore
    ensures logout == Ok(OK) && cleared.Get(JWT_COOKIE_NAME).None?
    ensures !validAfter
    ensures resubmitted == Err(InvalidToken)
    ensures again == Err(MissingToken)
  {
    var store := new BannedTokenStores.HashsetBannedTokenStore();
    var cookie := GenerateAuthCookie(email, issuedAt, encode).value;
    var jar := EmptyJar.Add(cookie);
    FreshTokenValidates(email, issuedAt, now, encode, decode, store);
    validBefore := ValidateToken(cookie.value, store, decode, now).Ok?;
    cleared, logout := Logout(jar, store, decode, now);
    validAfter := ValidateToken(cookie.value, store, decode, now).Ok?;
    var _, r1 := Logout(jar, store, decode, now);
    resubmitted := r1;
    var _, r2 := Logout(cleared, store, decode, now);
    again := r2;
  }
}
