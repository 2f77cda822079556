/**
 * Refresh-token rotation (TokenServiceImpl). Five checks run in a fixed
 * order and the first that fails decides the outcome; only when all pass is
 * a new token pair minted and the account's single stored refresh token and
 * its expiry overwritten. A failure returns no store: nothing is saved.
 */
module TokenService {
  import opened Common
  import opened Accounts
  import Jwt

  /** The response shared by login and refresh. */
  datatype TokenPair = TokenPair(
    accessToken: Jwt.Token,
    accessTokenExpiresIn: int,
    refreshToken: Jwt.Token,
    refreshTokenExpiresIn: int,
    username: string)

  /** `after` is `before` with a new session installed and nothing else changed. */
  predicate SessionInstalled(before: Account, after: Account, token: Jwt.Token, expiry: int)
  {
    after == before.(refreshToken := Some(token), refreshTokenExpiry := Some(expiry))
  }

  /**
   * What a successful login or refresh for `username` leaves behind: the pair
   * minted now, the refresh half stored on the one account with that username
   * with expiry now + refresh lifetime, and every other account untouched.
   */
  ghost predicate SessionIssued(cfg: Jwt.Config, store: Store, username: string, now: int, s: Saved<TokenPair>)
  {
    && ByUsername(store, username).Found?
    && var id := ByUsername(store, username).id;
    && s.value == TokenPair(
         Jwt.GenerateAccessToken(cfg, username, now), cfg.accessTokenExpiration,
         Jwt.GenerateRefreshToken(cfg, username, now), cfg.refreshTokenExpiration,
         username)
    && s.store.Keys == store.Keys
    && (forall other :: other in store && other != id ==> s.store[other] == store[other])
    && SessionInstalled(store[id], s.store[id], s.value.refreshToken, now + cfg.refreshTokenExpiration)
  }

  /** Mints a pair for `username` and records its refresh half on account `id` (updateRefreshTokenInDB). */
  function IssueTokens(cfg: Jwt.Config, store: Store, id: Id, username: string, now: int): Saved<TokenPair>
    requires id in store
  {
    var access := Jwt.GenerateAccessToken(cfg, username, now);
    var refresh := Jwt.GenerateRefreshToken(cfg, username, now);
    var account := store[id].(refreshToken := Some(refresh),
                              refreshTokenExpiry := Some(now + cfg.refreshTokenExpiration));
    Saved(TokenPair(access, cfg.accessTokenExpiration, refresh, cfg.refreshTokenExpiration, username),
          store[id := account])
  }

  // The five checks, each stated on its own.

  predicate Verified(cfg: Jwt.Config, t: Jwt.Token, now: int)
  {
    Jwt.Validate(cfg, t, now).Success?
  }

  predicate RefreshTyped(t: Jwt.Token)
  {
    Jwt.TokenType(t) == Some(Jwt.REFRESH_TYPE)
  }

  /** The account the token's username claim names. */
  function Holder(store: Store, t: Jwt.Token): Lookup
    requires t.Signed?
  {
    ByUsername(store, t.claims.username)
  }

  predicate StoredTokenMatches(store: Store, t: Jwt.Token)
    requires t.Signed? && Holder(store, t).Found?
  {
    store[Holder(store, t).id].refreshToken == Some(t)
  }

  predicate StoredExpiryNotPassed(store: Store, t: Jwt.Token, now: int)
    requires t.Signed? && Holder(store, t).Found?
  {
    var expiry := store[Holder(store, t).id].refreshTokenExpiry;
    expiry.Some? && now <= expiry.value
  }

  predicate ReachesLookup(cfg: Jwt.Config, t: Jwt.Token, now: int)
  {
    Verified(cfg, t, now) && RefreshTyped(t)
  }

  predicate ReachesComparison(cfg: Jwt.Config, store: Store, t: Jwt.Token, now: int)
  {
    ReachesLookup(cfg, t, now) && Holder(store, t).Found?
  }

  predicate ReachesExpiryCheck(cfg: Jwt.Config, store: Store, t: Jwt.Token, now: int)
  {
    ReachesComparison(cfg, store, t, now) && StoredTokenMatches(store, t)
  }

  /** Every check passes. */
  predicate RefreshAllowed(cfg: Jwt.Config, store: Store, t: Jwt.Token, now: int)
  {
    ReachesExpiryCheck(cfg, store, t, now) && StoredExpiryNotPassed(store, t, now)
  }

  /**
   * refreshToken. Each error arises exactly when every earlier check passed
   * and its own check failed; success arises exactly when all five pass.
   */
  function RefreshToken(cfg: Jwt.Config, store: Store, presented: Jwt.Token, now: int)
    : (r: Result<Saved<TokenPair>, Error>)
    ensures r == Failure(InvalidOrExpiredRefreshToken) <==> !Verified(cfg, presented, now)
    ensures r == Failure(InvalidTokenType) <==> Verified(cfg, presented, now) && !RefreshTyped(presented)
    ensures r == Failure(UsernameNotFound) <==>
      ReachesLookup(cfg, presented, now) && Holder(store, presented).NoMatch?
    ensures r == Failure(NonUniqueResult) <==>
      ReachesLookup(cfg, presented, now) && Holder(store, presented).NonUnique?
    ensures r == Failure(RefreshTokenMismatch) <==>
      ReachesComparison(cfg, store, presented, now) && !StoredTokenMatches(store, presented)
    ensures r == Failure(MissingRefreshTokenExpiry) <==>
      ReachesExpiryCheck(cfg, store, presented, now)
      && store[Holder(store, presented).id].refreshTokenExpiry.None?
    ensures r == Failure(RefreshTokenExpiredInDb) <==>
      ReachesExpiryCheck(cfg, store, presented, now)
      && store[Holder(store, presented).id].refreshTokenExpiry.Some?
      && store[Holder(store, presented).id].refreshTokenExpiry.value < now
    ensures r.Success? <==> RefreshAllowed(cfg, store, presented, now)
    ensures r.Success? ==> SessionIssued(cfg, store, presented.claims.username, now, r.value)
  {
    match Jwt.Validate(cfg, presented, now)
    case Failure(_) => Failure(InvalidOrExpiredRefreshToken)
    case Success(username) =>
      if Jwt.TokenType(presented) != Some(Jwt.REFRESH_TYPE) then Failure(InvalidTokenType)
      else
        match ByUsername(store, username)
        case NoMatch => Failure(UsernameNotFound)
        case NonUnique => Failure(NonUniqueResult)
        case Found(id) =>
          var account := store[id];
          if account.refreshToken != Some(presented) then Failure(RefreshTokenMismatch)
          else if account.refreshTokenExpiry.None? then Failure(MissingRefreshTokenExpiry)
          else if account.refreshTokenExpiry.value < now then Failure(RefreshTokenExpiredInDb)
          else Success(IssueTokens(cfg, store, id, username, now))
  }

  /** The first two checks decide without reading the store: no lookup happens before them. */
  lemma EarlyFailuresIgnoreStore(cfg: Jwt.Config, s1: Store, s2: Store, t: Jwt.Token, now: int)
    requires !ReachesLookup(cfg, t, now)
    ensures RefreshToken(cfg, s1, t, now) == RefreshToken(cfg, s2, t, now)
    ensures RefreshToken(cfg, s1, t, now).Failure?
  {
  }

  /** An access token never mints a session: it stops at the claim or type check. */
  lemma AccessTokenNeverRefreshes(cfg: Jwt.Config, store: Store, username: string, issued: int, now: int)
    ensures var r := RefreshToken(cfg, store, Jwt.GenerateAccessToken(cfg, username, issued), now);
      r == Failure(InvalidOrExpiredRefreshToken) || r == Failure(InvalidTokenType)
  {
  }

  /** Under the session invariant the null-expiry dereference cannot happen. */
  lemma ConsistentStoreHasExpiry(cfg: Jwt.Config, store: Store, t: Jwt.Token, now: int)
    requires StoreConsistent(store)
    ensures RefreshToken(cfg, store, t, now) != Failure(MissingRefreshTokenExpiry)
  {
  }

  /** A successful refresh keeps the session invariant on every account. */
  lemma RefreshPreservesConsistency(cfg: Jwt.Config, store: Store, t: Jwt.Token, now: int)
    requires StoreConsistent(store)
    requires RefreshToken(cfg, store, t, now).Success?
    ensures StoreConsistent(RefreshToken(cfg, store, t, now).value.store)
  {
  }

  /**
   * After any issuance for `username`, a token other than the one just issued
   * fails when presented for that user: at the claim or type check, or else at
   * the equality check.
   */
  lemma SupersededTokenFails(cfg: Jwt.Config, store: Store, username: string, issued: int,
                                s: Saved<TokenPair>, stale: Jwt.Token, now: int)
    requires SessionIssued(cfg, store, username, issued, s)
    requires stale != s.value.refreshToken
    requires stale.Signed? ==> stale.claims.username == username
    ensures RefreshToken(cfg, s.store, stale, now).Failure?
    ensures ReachesLookup(cfg, stale, now) ==>
      RefreshToken(cfg, s.store, stale, now) == Failure(RefreshTokenMismatch)
  {
    var id := ByUsername(store, username).id;
    ByUsernameUnchanged(store, s.store, username);
  }

  /**
   * Tokens carry whole-second times and no unique id, so a refresh in the same
   * second as the issuance of the presented token mints that very token again,
   * and the old value stays usable.
   */
  lemma SameSecondRefreshReissues(cfg: Jwt.Config, store: Store, username: string, now: int)
    requires RefreshToken(cfg, store, Jwt.GenerateRefreshToken(cfg, username, now), now).Success?
    ensures var t := Jwt.GenerateRefreshToken(cfg, username, now);
      RefreshToken(cfg, store, t, now).value.value.refreshToken == t
  {
  }

  /** Rotation is single use: replaying the presented token fails once a different token was minted. */
  lemma RefreshIsSingleUse(cfg: Jwt.Config, store: Store, t: Jwt.Token, now: int, later: int)
    requires RefreshToken(cfg, store, t, now).Success?
    requires t != RefreshToken(cfg, store, t, now).value.value.refreshToken
    ensures RefreshToken(cfg, RefreshToken(cfg, store, t, now).value.store, t, later).Failure?
    ensures ReachesLookup(cfg, t, later) ==>
      RefreshToken(cfg, RefreshToken(cfg, store, t, now).value.store, t, later) == Failure(RefreshTokenMismatch)
  {
    var s := RefreshToken(cfg, store, t, now).value;
    SupersededTokenFails(cfg, store, t.claims.username, now, s, t, later);
  }
}
