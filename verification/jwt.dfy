/**
 * The token codec (JwtUtil). A token is its claims record together with an
 * abstract tag standing for the secret it was signed with; the HMAC itself is
 * not modelled. Two tokens are equal exactly when their compact serialisations
 * are, so `==` on `Token` stands for the string comparison the services do.
 * Time is a parameter `now`, in seconds.
 */
module Jwt {
  import opened Common

  /** Fixed subject claim written and required by the codec. */
  const SUBJECT: string := "User details"
  const ACCESS_TYPE: string := "access"
  const REFRESH_TYPE: string := "refresh"

  /**
   * Externally supplied configuration: the signing secret, the issuer, the
   * single lifetime of `GenerateToken`, and the lifetimes of the two token
   * kinds the session services mint.
   */
  datatype Config = Config(
    secret: string,
    issuer: string,
    expiration: int,
    accessTokenExpiration: int,
    refreshTokenExpiration: int)

  /** The claims a token carries; `tokenType` is absent from `GenerateToken`'s tokens. */
  datatype Claims = Claims(
    subject: string,
    username: string,
    tokenType: Option<string>,
    issuer: string,
    issuedAt: int,
    expiresAt: int)

  datatype Token =
    | Signed(claims: Claims, secretTag: string)
    | Malformed(text: string)  // a string the decoder cannot parse

  datatype VerifyError = DecodeFailure | SignatureFailure | ClaimMismatch | Expired | IssuedInFuture

  /** A token signed with the configured secret, issued now, valid for `lifetime` seconds. */
  function Mint(cfg: Config, username: string, tokenType: Option<string>, lifetime: int, now: int): Token
  {
    Signed(Claims(SUBJECT, username, tokenType, cfg.issuer, now, now + lifetime), cfg.secret)
  }

  function GenerateToken(cfg: Config, username: string, now: int): (t: Token)
    ensures t.Signed? && t.secretTag == cfg.secret
    ensures t.claims.subject == SUBJECT && t.claims.issuer == cfg.issuer
    ensures t.claims.username == username && t.claims.tokenType.None?
    ensures t.claims.issuedAt == now && t.claims.expiresAt == now + cfg.expiration
  {
    Mint(cfg, username, None, cfg.expiration, now)
  }

  function GenerateAccessToken(cfg: Config, username: string, now: int): (t: Token)
    ensures t.Signed? && t.claims.tokenType == Some(ACCESS_TYPE)
    ensures t.claims.username == username
    ensures t.claims.expiresAt == now + cfg.accessTokenExpiration
  {
    Mint(cfg, username, Some(ACCESS_TYPE), cfg.accessTokenExpiration, now)
  }

  function GenerateRefreshToken(cfg: Config, username: string, now: int): (t: Token)
    ensures t.Signed? && t.claims.tokenType == Some(REFRESH_TYPE)
    ensures t.claims.username == username
    ensures t.claims.expiresAt == now + cfg.refreshTokenExpiration
  {
    Mint(cfg, username, Some(REFRESH_TYPE), cfg.refreshTokenExpiration, now)
  }

  /**
   * What the verifier checks: the secret, the subject, the issuer, the
   * embedded expiry, and that the token was not issued after now.
   */
  predicate Accepts(cfg: Config, t: Token, now: int)
  {
    && t.Signed?
    && t.secretTag == cfg.secret
    && t.claims.subject == SUBJECT
    && t.claims.issuer == cfg.issuer
    && now < t.claims.expiresAt
    && t.claims.issuedAt <= now
  }

  /**
   * validateTokenAndRetrieveClaim: verifies the token and returns its
   * username claim, or fails with the verifier's error.
   */
  function Validate(cfg: Config, t: Token, now: int): (r: Result<string, VerifyError>)
    ensures r.Success? <==> Accepts(cfg, t, now)
    ensures r.Success? ==> r.value == t.claims.username
    ensures t.Malformed? ==> r == Failure(DecodeFailure)
    ensures t.Signed? && t.secretTag != cfg.secret ==> r == Failure(SignatureFailure)
  {
    match t
    case Malformed(_) => Failure(DecodeFailure)
    case Signed(c, tag) =>
      if tag != cfg.secret then Failure(SignatureFailure)
      else if c.subject != SUBJECT || c.issuer != cfg.issuer then Failure(ClaimMismatch)
      else if now >= c.expiresAt then Failure(Expired)
      else if now < c.issuedAt then Failure(IssuedInFuture)
      else Success(c.username)
  }

  /** The type claim read from a decoded token, absent when the token has none or cannot be decoded. */
  function TokenType(t: Token): (r: Option<string>)
    ensures r.Some? ==> t.Signed? && t.claims.tokenType == r
    ensures t.Signed? ==> r == t.claims.tokenType
  {
    if t.Signed? then t.claims.tokenType else None
  }

  /** isTokenExpired: decodes without verifying; an undecodable token counts as expired. */
  function IsTokenExpired(t: Token, now: int): (expired: bool)
    ensures t.Malformed? ==> expired
    ensures t.Signed? ==> (expired <==> t.claims.expiresAt < now)
  {
    match t
    case Malformed(_) => true
    case Signed(c, _) => c.expiresAt < now
  }

  /** getExpirationTime: the configured lifetime of `GenerateToken`'s tokens. */
  function GetExpirationTime(cfg: Config): (seconds: int)
    ensures seconds == cfg.expiration
  {
    cfg.expiration
  }

  /** A freshly generated token validates, until its lifetime ends, to the username it was made for. */
  lemma GenerateValidateRoundTrip(cfg: Config, username: string, issued: int, now: int)
    requires issued <= now < issued + cfg.expiration
    ensures Validate(cfg, GenerateToken(cfg, username, issued), now) == Success(username)
    ensures GenerateToken(cfg, username, issued).claims.expiresAt - issued == GetExpirationTime(cfg)
  {
  }

  /** The same round trip for the two typed tokens the session services mint. */
  lemma TypedTokensRoundTrip(cfg: Config, username: string, issued: int, now: int)
    requires issued <= now
    ensures now < issued + cfg.accessTokenExpiration ==>
      Validate(cfg, GenerateAccessToken(cfg, username, issued), now) == Success(username)
    ensures now < issued + cfg.refreshTokenExpiration ==>
      Validate(cfg, GenerateRefreshToken(cfg, username, issued), now) == Success(username)
  {
  }

  /** The type read back from a minted token is the one it was minted with; the untyped codec writes none. */
  lemma MintedTokensReportTheirType(cfg: Config, username: string, issued: int)
    ensures TokenType(GenerateAccessToken(cfg, username, issued)) == Some(ACCESS_TYPE)
    ensures TokenType(GenerateRefreshToken(cfg, username, issued)) == Some(REFRESH_TYPE)
    ensures TokenType(GenerateToken(cfg, username, issued)) == None
  {
  }

  /** A token signed with another secret never validates, whatever its claims. */
  lemma ForeignSecretRejected(cfg: Config, c: Claims, tag: string, now: int)
    requires tag != cfg.secret
    ensures Validate(cfg, Signed(c, tag), now) == Failure(SignatureFailure)
  {
  }

  /** A token isTokenExpired reports as expired never validates. */
  lemma ExpiredTokensDoNotValidate(cfg: Config, t: Token, now: int)
    requires IsTokenExpired(t, now)
    ensures Validate(cfg, t, now).Failure?
  {
  }
}
