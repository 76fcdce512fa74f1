/**
 * Issuing and validating the bearer token. Signing and verifying the JWT
 * (the `jsonwebtoken` library with the server's secret) and the wall clock
 * are parameters: an `Encoder`, a `Decoder` and the current time `now`.
 */
module AuthTokens {
  import opened Common
  import opened Cookies
  import Emails
  import BannedTokenStores

  /** Lifetime of an issued token, in seconds. */
  const TOKEN_TTL_SECONDS: int := 900

  /** Name of the auth cookie. */
  const JWT_COOKIE_NAME: string := "jwt"

  /** Clock skew the default JWT validation tolerates past `exp`, in seconds. */
  const DEFAULT_LEEWAY_SECONDS: int := 60

  /**
   * Latest instant the date-time library represents, as a unix timestamp in
   * seconds: 262143-12-31T23:59:59, the `NaiveDate::MAX` of the chrono
   * releases whose range ends in year 262143.
   */
  const MAX_TIMESTAMP: int := 8210298412799

  /** `Claims`: the subject's email and the expiry as a unix timestamp. */
  datatype Claims = Claims(sub: string, exp: nat)

  /** JWT signing with the server secret; it may fail. */
  type Encoder = Claims -> Result<string, Report>

  /**
   * JWT decoding at instant `now` with the default validation: signature,
   * shape and expiry. Whatever it does, it never accepts claims that expired
   * more than the leeway before `now`.
   */
  type Decoder = d: (string, int) -> Result<Claims, Report>
    | forall t, now :: d(t, now).Ok? ==> now <= d(t, now).value.exp + DEFAULT_LEEWAY_SECONDS
    witness (t: string, now: int) => Err(Report("failed to decode token"))

  /** The decoder recovers every claims value the encoder signed, while it has not expired. */
  ghost predicate RoundTrips(encode: Encoder, decode: Decoder) {
    forall c: Claims, now: int :: encode(c).Ok? && now <= c.exp + DEFAULT_LEEWAY_SECONDS ==>
      decode(encode(c).value, now) == Ok(c)
  }

  /**
   * The expiry of a token issued at `now`: `now + TOKEN_TTL_SECONDS`, or an
   * error when that instant is past the representable range or is negative
   * (it must fit an unsigned integer). It never wraps.
   */
  function Expiry(now: int): (r: Result<nat, Report>)
    ensures r.Ok? <==> 0 <= now + TOKEN_TTL_SECONDS <= MAX_TIMESTAMP
    ensures r.Ok? ==> r.value == now + TOKEN_TTL_SECONDS && r.value > now
  {
    if now + TOKEN_TTL_SECONDS > MAX_TIMESTAMP then
      Err(Report("failed to add 10 minutes to current time"))
    else if now + TOKEN_TTL_SECONDS < 0 then
      Err(Report("failed to cast exp time to usize"))
    else
      Ok(now + TOKEN_TTL_SECONDS)
  }

  /** The claims `generate_auth_token` signs for `email` at `now`. */
  function IssueClaims(email: Emails.Email, now: int): (r: Result<Claims, Report>)
    ensures r.Ok? <==> Expiry(now).Ok?
    ensures r.Ok? ==> r.value.sub == email.AsRef() && r.value.exp == now + TOKEN_TTL_SECONDS
  {
    match Expiry(now)
    case Err(e) => Err(e)
    case Ok(exp) => Ok(Claims(email.AsRef(), exp))
  }

  /** `generate_auth_token`: the signed token for those claims. */
  function GenerateAuthToken(email: Emails.Email, now: int, encode: Encoder): (r: Result<string, Report>)
    ensures IssueClaims(email, now).Ok? ==> r == encode(IssueClaims(email, now).value)
    ensures IssueClaims(email, now).Err? ==> r.Err?
  {
    match IssueClaims(email, now)
    case Err(e) => Err(e)
    case Ok(claims) => encode(claims)
  }

  /** `create_auth_cookie`: the token under the fixed auth-cookie attributes. */
  function CreateAuthCookie(token: string): (c: Cookie)
    ensures c.name == JWT_COOKIE_NAME && c.value == token
    ensures c.path == Some("/") && c.httpOnly == Some(true) && c.sameSite == Some(Lax)
  {
    Cookie(JWT_COOKIE_NAME, token, Some("/"), Some(true), Some(Lax))
  }

  /** `generate_auth_cookie`: a fresh token wrapped in the auth cookie. */
  function GenerateAuthCookie(email: Emails.Email, now: int, encode: Encoder): (r: Result<Cookie, Report>)
    ensures r.Ok? <==> GenerateAuthToken(email, now, encode).Ok?
    ensures r.Ok? ==> r.value.name == JWT_COOKIE_NAME && r.value.value == GenerateAuthToken(email, now, encode).value
    ensures r.Ok? ==> r.value.path == Some("/") && r.value.httpOnly == Some(true) && r.value.sameSite == Some(Lax)
  {
    match GenerateAuthToken(email, now, encode)
    case Err(e) => Err(e)
    case Ok(token) => Ok(CreateAuthCookie(token))
  }

  /**
   * The decision `validate_token` takes once it has the revocation ledger's
   * answer `banned` for `token`: a ledger error is passed on, a banned token is
   * refused without being decoded, and anything else is decoded.
   */
  function CheckThenDecode(token: string, banned: Result<bool, BannedTokenStores.BannedTokenStoreError>,
                           decode: Decoder, now: int): (r: Result<Claims, Report>)
    ensures banned.Err? ==> r == Err(banned.error.cause)
    ensures banned == Ok(true) ==> r.Err?
    ensures banned == Ok(false) ==> r == decode(token, now)
    ensures r.Ok? ==> banned == Ok(false) && now <= r.value.exp + DEFAULT_LEEWAY_SECONDS
  {
    match banned
    case Err(e) => Err(e.cause)
    case Ok(isBanned) =>
      if isBanned then Err(Report("token is banned")) else decode(token, now)
  }

  /**
   * `validate_token` against the in-memory ledger: refuses a banned token,
   * otherwise gives exactly the decoder's verdict. It only reads the ledger.
   */
  function ValidateToken(token: string, store: BannedTokenStores.HashsetBannedTokenStore,
                         decode: Decoder, now: int): (r: Result<Claims, Report>)
    reads store
    ensures token in store.tokens ==> r.Err?
    ensures token !in store.tokens ==> r == decode(token, now)
    ensures r.Ok? ==> token !in store.tokens && now <= r.value.exp + DEFAULT_LEEWAY_SECONDS
  {
    CheckThenDecode(token, store.ContainsToken(token), decode, now)
  }

  /** A banned token is refused whatever the decoder would say: it is never decoded. */
  lemma BannedTokenIsNotDecoded(token: string, store: BannedTokenStores.HashsetBannedTokenStore,
                                d1: Decoder, d2: Decoder, now: int)
    requires token in store.tokens
    ensures ValidateToken(token, store, d1, now) == ValidateToken(token, store, d2, now)
  {
  }

  /**
   * A freshly issued token validates against a ledger that does not hold it,
   * at any instant up to its expiry: the claims name the email and expire
   * more than eight minutes after issuance.
   */
  lemma FreshTokenValidates(email: Emails.Email, issuedAt: int, now: int,
                            encode: Encoder, decode: Decoder,
                            store: BannedTokenStores.HashsetBannedTokenStore)
    requires RoundTrips(encode, decode)
    requires GenerateAuthToken(email, issuedAt, encode).Ok?
    requires GenerateAuthToken(email, issuedAt, encode).value !in store.tokens
    requires now <= issuedAt + TOKEN_TTL_SECONDS
    ensures ValidateToken(GenerateAuthToken(email, issuedAt, encode).value, store, decode, now).Ok?
    ensures ValidateToken(GenerateAuthToken(email, issuedAt, encode).value, store, decode, now).value
      == Claims(email.AsRef(), issuedAt + TOKEN_TTL_SECONDS)
    ensures ValidateToken(GenerateAuthToken(email, issuedAt, encode).value, store, decode, now).value.exp
      > issuedAt + 8 * 60
  {
  }
}
