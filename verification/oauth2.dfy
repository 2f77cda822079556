/**
 * The federated account binder (OAuth2Service.findOrCreateOAuth2User). The
 * identity has already been verified by the provider; the binder looks it
 * up by (provider, id), then by email, and either returns, links, refuses
 * or creates. The database's id generator is the parameter `newId`.
 */
module OAuth2 {
  import opened Common
  import opened Accounts
  import Usernames

  /** The verified identity handed over by the provider's token verifier. */
  datatype OAuth2UserInfo = OAuth2UserInfo(
    id: string,
    email: string,
    name: Option<string>,
    picture: Option<string>,
    provider: string)

  /** The result of a successful call: `value` is the id of the returned account. */
  predicate Returns(r: Result<Saved<Id>, Error>, id: Id, store: Store)
  {
    r == Success(Saved(id, store))
  }

  /** The email-matched account with the identity and picture attached, saved in place. */
  function Link(store: Store, id: Id, info: OAuth2UserInfo): (s: Saved<Id>)
    requires id in store
    ensures s.value == id && s.store.Keys == store.Keys
    ensures s.store[id] == store[id].(oauthProvider := Some(info.provider), oauthId := Some(info.id),
                                      profilePictureUrl := info.picture)
    ensures forall j :: j in store && j != id ==> s.store[j] == store[j]
  {
    Saved(id, store[id := store[id].(oauthProvider := Some(info.provider), oauthId := Some(info.id),
                                     profilePictureUrl := info.picture)])
  }

  /** A new USER account without password or session, bound to the identity, saved under `newId`. */
  function Create(store: Store, info: OAuth2UserInfo, username: string, newId: Id, now: int): (s: Saved<Id>)
    requires newId !in store
    ensures s.value == newId && s.store.Keys == store.Keys + {newId}
    ensures forall j :: j in store ==> s.store[j] == store[j]
    ensures var a := s.store[newId];
      && a.username == username && a.email == info.email && a.role == USER && a.password.None?
      && BoundTo(a, info.provider, info.id) && a.profilePictureUrl == info.picture
      && a.createdAt == now && a.refreshToken.None? && a.refreshTokenExpiry.None?
  {
    Saved(newId, store[newId := Account(username, info.email, None, USER, Some(info.provider), Some(info.id),
                                        info.picture, now, None, None)])
  }

  function FindOrCreateOAuth2User(store: Store, info: OAuth2UserInfo, newId: Id, now: int)
    : (r: Result<Saved<Id>, Error>)
    requires newId !in store
    // in every case the returned account carries the identity and no other account changes
    ensures r.Success? ==>
      && r.value.value in r.value.store
      && BoundTo(r.value.store[r.value.value], info.provider, info.id)
      && r.value.store.Keys == store.Keys + {r.value.value}
      && forall j :: j in store && j != r.value.value ==> r.value.store[j] == store[j]
    // a lookup that matches several rows fails
    ensures r == Failure(NonUniqueResult) <==>
      || ByOAuth(store, info.provider, info.id).NonUnique?
      || (ByOAuth(store, info.provider, info.id).NoMatch? && ByEmail(store, info.email).NonUnique?)
    // a bound identity is returned as it is, with nothing saved
    ensures ByOAuth(store, info.provider, info.id).Found? ==>
      Returns(r, ByOAuth(store, info.provider, info.id).id, store)
    // an email-matched account bound to any provider is refused
    ensures r == Failure(ProviderConflict) <==>
      && ByOAuth(store, info.provider, info.id).NoMatch?
      && ByEmail(store, info.email).Found?
      && store[ByEmail(store, info.email).id].oauthProvider.Some?
    // an email-matched account without a provider gains exactly provider, id and picture
    ensures ByOAuth(store, info.provider, info.id).NoMatch? && ByEmail(store, info.email).Found?
            && store[ByEmail(store, info.email).id].oauthProvider.None? ==>
      var id := ByEmail(store, info.email).id;
      Returns(r, id, store[id := store[id].(oauthProvider := Some(info.provider), oauthId := Some(info.id),
                                            profilePictureUrl := info.picture)])
    // otherwise a new account is created under a free username
    ensures ByOAuth(store, info.provider, info.id).NoMatch? && ByEmail(store, info.email).NoMatch? ==>
      (r == Failure(MalformedEmail) <==> Usernames.LocalPart(info.email).None?)
    ensures ByOAuth(store, info.provider, info.id).NoMatch? && ByEmail(store, info.email).NoMatch?
            && Usernames.LocalPart(info.email).Some? ==>
      r.Success? && r.value.value == newId
    ensures r.Success? && r.value.value == newId ==>
      var a := r.value.store[newId];
      && Usernames.LocalPart(info.email).Some?
      && a.username !in TakenUsernames(store)
      && a.username == Usernames.GeneratedUsername(Usernames.LocalPart(info.email).value, TakenUsernames(store))
      && a.email == info.email && a.role == USER && a.password.None?
      && BoundTo(a, info.provider, info.id) && a.profilePictureUrl == info.picture
      && a.createdAt == now && a.refreshToken.None? && a.refreshTokenExpiry.None?
  {
    match ByOAuth(store, info.provider, info.id)
    case Found(id) => Success(Saved(id, store))
    case NonUnique => Failure(NonUniqueResult)
    case NoMatch =>
      match ByEmail(store, info.email)
      case NonUnique => Failure(NonUniqueResult)
      case Found(id) =>
        if store[id].oauthProvider.None? then Success(Link(store, id, info))
        else Failure(ProviderConflict)
      case NoMatch =>
        match Usernames.LocalPart(info.email)
        case None => Failure(MalformedEmail)
        case Some(base) =>
          Success(Create(store, info, Usernames.GeneratedUsername(base, TakenUsernames(store)), newId, now))
  }

  /**
   * Logging in twice with the same identity returns the same account and
   * saves nothing the second time: no duplicate is created.
   */
  lemma SecondLoginReturnsSameAccount(store: Store, info: OAuth2UserInfo, newId: Id, now: int,
                                                         laterId: Id, later: int)
    requires newId !in store
    requires FindOrCreateOAuth2User(store, info, newId, now).Success?
    requires laterId !in FindOrCreateOAuth2User(store, info, newId, now).value.store
    ensures var s := FindOrCreateOAuth2User(store, info, newId, now).value;
      FindOrCreateOAuth2User(s.store, info, laterId, later) == Success(s)
  {
    var s := FindOrCreateOAuth2User(store, info, newId, now).value;
    var bound := set j | j in s.store && BoundTo(s.store[j], info.provider, info.id);
    if ByOAuth(store, info.provider, info.id).NoMatch? {
      forall j | j in s.store && j != s.value
        ensures !BoundTo(s.store[j], info.provider, info.id)
      {
        assert j in store && s.store[j] == store[j];
      }
    }
    assert bound == {s.value};
  }

  /** Linking and creating keep usernames unique. */
  lemma KeepsUsernamesUnique(store: Store, info: OAuth2UserInfo, newId: Id, now: int)
    requires newId !in store
    requires UniqueUsernames(store)
    requires FindOrCreateOAuth2User(store, info, newId, now).Success?
    ensures UniqueUsernames(FindOrCreateOAuth2User(store, info, newId, now).value.store)
  {
  }

  /** Linking and creating keep the session invariant: neither touches a refresh token. */
  lemma KeepsSessionsConsistent(store: Store, info: OAuth2UserInfo, newId: Id, now: int)
    requires newId !in store
    requires StoreConsistent(store)
    requires FindOrCreateOAuth2User(store, info, newId, now).Success?
    ensures StoreConsistent(FindOrCreateOAuth2User(store, info, newId, now).value.store)
  {
  }
}
