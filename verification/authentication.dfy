/**
 * Login and logout (AuthenticationServiceImpl) as transitions on an
 * account's refresh-token fields, and the properties they share with
 * rotation: the session invariant, supersession of earlier tokens, and the
 * end of every session at logout. The password check is the external
 * authentication manager, passed in as `authenticate`.
 */
module Authentication {
  import opened Common
  import opened Accounts
  import Jwt
  import opened TokenService

  /**
   * performLogin: credentials first, then the account, then a fresh pair
   * whose refresh half overwrites the stored one.
   */
  function PerformLogin(cfg: Jwt.Config, store: Store, username: string, password: string,
                        authenticate: (string, string) -> bool, now: int)
    : (r: Result<Saved<TokenPair>, Error>)
    ensures r == Failure(BadCredentials) <==> !authenticate(username, password)
    ensures r == Failure(UsernameNotFound) <==>
      authenticate(username, password) && ByUsername(store, username).NoMatch?
    ensures r == Failure(NonUniqueResult) <==>
      authenticate(username, password) && ByUsername(store, username).NonUnique?
    ensures r.Success? <==> authenticate(username, password) && ByUsername(store, username).Found?
    ensures r.Success? ==> SessionIssued(cfg, store, username, now, r.value)
  {
    if !authenticate(username, password) then Failure(BadCredentials)
    else
      match ByUsername(store, username)
      case NoMatch => Failure(UsernameNotFound)
      case NonUnique => Failure(NonUniqueResult)
      case Found(id) => Success(IssueTokens(cfg, store, id, username, now))
  }

  /**
   * logout: claim verification only (no type check, no comparison with the
   * stored token), then both session fields of the named account are cleared.
   */
  function Logout(cfg: Jwt.Config, store: Store, presented: Jwt.Token, now: int): (r: Result<Store, Error>)
    ensures Jwt.Validate(cfg, presented, now).Failure? ==>
      r == Failure(TokenVerification(Jwt.Validate(cfg, presented, now).error))
    ensures r == Failure(UsernameNotFound) <==>
      Verified(cfg, presented, now) && Holder(store, presented).NoMatch?
    ensures r == Failure(NonUniqueResult) <==>
      Verified(cfg, presented, now) && Holder(store, presented).NonUnique?
    ensures r.Success? <==> Verified(cfg, presented, now) && Holder(store, presented).Found?
    ensures r.Success? ==>
      var id := Holder(store, presented).id;
      && r.value.Keys == store.Keys
      && r.value[id] == store[id].(refreshToken := None, refreshTokenExpiry := None)
      && forall other :: other in store && other != id ==> r.value[other] == store[other]
  {
    match Jwt.Validate(cfg, presented, now)
    case Failure(e) => Failure(TokenVerification(e))
    case Success(username) =>
      match ByUsername(store, username)
      case NoMatch => Failure(UsernameNotFound)
      case NonUnique => Failure(NonUniqueResult)
      case Found(id) =>
        Success(store[id := store[id].(refreshToken := None, refreshTokenExpiry := None)])
  }

  /** Failed credentials decide before the store is read. */
  lemma BadCredentialsIgnoreStore(cfg: Jwt.Config, s1: Store, s2: Store, username: string, password: string,
                                  authenticate: (string, string) -> bool, now: int)
    requires !authenticate(username, password)
    ensures PerformLogin(cfg, s1, username, password, authenticate, now)
         == PerformLogin(cfg, s2, username, password, authenticate, now)
  {
  }

  /** Login, refresh and logout each keep "token absent exactly when expiry absent" on every account. */
  lemma SessionInvariantPreserved(cfg: Jwt.Config, store: Store, username: string, password: string,
                                  authenticate: (string, string) -> bool, t: Jwt.Token, now: int)
    requires StoreConsistent(store)
    ensures var r := PerformLogin(cfg, store, username, password, authenticate, now);
      r.Success? ==> StoreConsistent(r.value.store)
    ensures var r := RefreshToken(cfg, store, t, now);
      r.Success? ==> StoreConsistent(r.value.store)
    ensures var r := Logout(cfg, store, t, now);
      r.Success? ==> StoreConsistent(r.value)
  {
  }

  /** Both halves of a login's pair verify to the username for as long as they live. */
  lemma LoginTokensVerify(cfg: Jwt.Config, store: Store, username: string, password: string,
                          authenticate: (string, string) -> bool, now: int, later: int)
    requires PerformLogin(cfg, store, username, password, authenticate, now).Success?
    ensures var pair := PerformLogin(cfg, store, username, password, authenticate, now).value.value;
      && (now <= later < now + cfg.accessTokenExpiration ==>
            Jwt.Validate(cfg, pair.accessToken, later) == Success(username))
      && (now <= later < now + cfg.refreshTokenExpiration ==>
            Jwt.Validate(cfg, pair.refreshToken, later) == Success(username))
  {
  }

  /**
   * Login overwrites the single stored token: any earlier refresh token of
   * that user, once different from the new one, fails, and at the equality
   * check if it gets that far.
   */
  lemma LoginSupersedesEarlierTokens(
    cfg: Jwt.Config, store: Store, username: string, password: string,
    authenticate: (string, string) -> bool, now: int, stale: Jwt.Token, later: int)
    requires PerformLogin(cfg, store, username, password, authenticate, now).Success?
    requires stale != PerformLogin(cfg, store, username, password, authenticate, now).value.value.refreshToken
    requires stale.Signed? ==> stale.claims.username == username
    ensures var s := PerformLogin(cfg, store, username, password, authenticate, now).value.store;
      RefreshToken(cfg, s, stale, later).Failure?
    ensures var s := PerformLogin(cfg, store, username, password, authenticate, now).value.store;
      ReachesLookup(cfg, stale, later) ==> RefreshToken(cfg, s, stale, later) == Failure(RefreshTokenMismatch)
  {
    var s := PerformLogin(cfg, store, username, password, authenticate, now).value;
    SupersededTokenFails(cfg, store, username, now, s, stale, later);
  }

  /** The refresh token a login hands out refreshes successfully while it lives. */
  lemma LoginThenRefresh(cfg: Jwt.Config, store: Store, username: string, password: string,
                                            authenticate: (string, string) -> bool, now: int, later: int)
    requires PerformLogin(cfg, store, username, password, authenticate, now).Success?
    requires now <= later < now + cfg.refreshTokenExpiration
    ensures var s := PerformLogin(cfg, store, username, password, authenticate, now).value;
      RefreshToken(cfg, s.store, s.value.refreshToken, later).Success?
  {
    var s := PerformLogin(cfg, store, username, password, authenticate, now).value;
    ByUsernameUnchanged(store, s.store, username);
  }

  /** Any valid token naming the user ends the session, an access token included. */
  lemma LogoutAcceptsAccessToken(cfg: Jwt.Config, store: Store, username: string, issued: int, now: int)
    requires ByUsername(store, username).Found?
    requires issued <= now < issued + cfg.accessTokenExpiration
    ensures Logout(cfg, store, Jwt.GenerateAccessToken(cfg, username, issued), now).Success?
  {
  }

  /** Logging out again with the same token changes nothing. */
  lemma LogoutIsIdempotent(cfg: Jwt.Config, store: Store, t: Jwt.Token, now: int)
    requires Logout(cfg, store, t, now).Success?
    ensures Logout(cfg, Logout(cfg, store, t, now).value, t, now) == Logout(cfg, store, t, now)
  {
    var after := Logout(cfg, store, t, now).value;
    ByUsernameUnchanged(store, after, t.claims.username);
    var id := Holder(store, t).id;
    assert after[id := after[id].(refreshToken := None, refreshTokenExpiry := None)] == after;
  }

  /** After logout no refresh token of that user works: each stops at the equality check at the latest. */
  lemma LogoutEndsSession(cfg: Jwt.Config, store: Store, t: Jwt.Token, now: int,
                                             presented: Jwt.Token, later: int)
    requires Logout(cfg, store, t, now).Success?
    requires presented.Signed? ==> presented.claims.username == t.claims.username
    ensures RefreshToken(cfg, Logout(cfg, store, t, now).value, presented, later).Failure?
    ensures ReachesLookup(cfg, presented, later) ==>
      RefreshToken(cfg, Logout(cfg, store, t, now).value, presented, later) == Failure(RefreshTokenMismatch)
  {
    var after := Logout(cfg, store, t, now).value;
    ByUsernameUnchanged(store, after, t.claims.username);
  }
}
