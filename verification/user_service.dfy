/**
 * The account service (UserServiceImpl): lookup and deletion by id, and the
 * current-user profile read and whitelisted update. The current principal's
 * username is a parameter in place of the security-context read.
 */
module UserService {
  import opened Common
  import opened Accounts

  const FREE_PLAN: string := "FREE"
  const EMAIL_KEY: string := "email"
  const PICTURE_KEY: string := "profilePictureUrl"

  datatype CurrentUserResponse = CurrentUserResponse(
    id: Id,
    username: string,
    email: string,
    role: Role,
    profilePictureUrl: Option<string>,
    createdAt: int,
    subscriptionPlan: string,
    subscriptionExpiresAt: Option<int>)

  /** The response built from a stored account: a copy of its public fields, on the free plan. */
  predicate Describes(resp: CurrentUserResponse, id: Id, a: Account)
  {
    && resp.id == id && resp.username == a.username && resp.email == a.email
    && resp.role == a.role && resp.profilePictureUrl == a.profilePictureUrl
    && resp.createdAt == a.createdAt
    && resp.subscriptionPlan == FREE_PLAN && resp.subscriptionExpiresAt.None?
  }

  function ResponseFor(id: Id, a: Account): CurrentUserResponse
  {
    CurrentUserResponse(id, a.username, a.email, a.role, a.profilePictureUrl, a.createdAt, FREE_PLAN, None)
  }

  function FindUserByIdOrThrow(store: Store, id: Id): (r: Result<Account, Error>)
    ensures r.Failure? <==> id !in store
    ensures r.Failure? ==> r.error == UserNotFound
    ensures r.Success? ==> r.value == store[id]
  {
    if id in store then Success(store[id]) else Failure(UserNotFound)
  }

  function DeleteById(store: Store, id: Id): (r: Result<Store, Error>)
    ensures id !in store ==> r == Failure(UserNotFound)
    ensures id in store ==> r.Success? && r.value.Keys == store.Keys - {id}
    ensures r.Success? ==> forall k :: k in r.value ==> r.value[k] == store[k]
  {
    if id !in store then Failure(UserNotFound) else Success(store - {id})
  }

  function GetCurrentUserId(store: Store, principal: string): (r: Result<Id, Error>)
    ensures ByUsername(store, principal).NoMatch? ==> r == Failure(UserNotFound)
    ensures r == Failure(NonUniqueResult) <==> ByUsername(store, principal).NonUnique?
    ensures r.Success? <==> ByUsername(store, principal).Found?
    ensures r.Success? ==> r.value in store && store[r.value].username == principal
  {
    match ByUsername(store, principal)
    case NoMatch => Failure(UserNotFound)
    case NonUnique => Failure(NonUniqueResult)
    case Found(id) => Success(id)
  }

  function GetCurrentUserResponse(store: Store, principal: string): (r: Result<CurrentUserResponse, Error>)
    ensures ByUsername(store, principal).NoMatch? ==> r == Failure(UserNotFound)
    ensures r == Failure(NonUniqueResult) <==> ByUsername(store, principal).NonUnique?
    ensures r.Success? <==> ByUsername(store, principal).Found?
    ensures r.Success? ==>
      var id := ByUsername(store, principal).id;
      Describes(r.value, id, store[id])
  {
    match ByUsername(store, principal)
    case NoMatch => Failure(UserNotFound)
    case NonUnique => Failure(NonUniqueResult)
    case Found(id) => Success(ResponseFor(id, store[id]))
  }

  /** The whitelist: only email and picture, each only when its key is present. */
  function ApplyUpdates(a: Account, updates: map<string, string>): (b: Account)
    ensures b.email == (if EMAIL_KEY in updates then updates[EMAIL_KEY] else a.email)
    ensures b.profilePictureUrl ==
      (if PICTURE_KEY in updates then Some(updates[PICTURE_KEY]) else a.profilePictureUrl)
    ensures b.(email := a.email, profilePictureUrl := a.profilePictureUrl) == a
  {
    var withEmail := if EMAIL_KEY in updates then a.(email := updates[EMAIL_KEY]) else a;
    if PICTURE_KEY in updates then withEmail.(profilePictureUrl := Some(updates[PICTURE_KEY]))
    else withEmail
  }

  function UpdateCurrentUserResponse(store: Store, principal: string, updates: map<string, string>)
    : (r: Result<Saved<CurrentUserResponse>, Error>)
    ensures ByUsername(store, principal).NoMatch? ==> r == Failure(UserNotFound)
    ensures r == Failure(NonUniqueResult) <==> ByUsername(store, principal).NonUnique?
    ensures r.Success? <==> ByUsername(store, principal).Found?
    ensures r.Success? ==>
      var id := ByUsername(store, principal).id;
      && r.value.store == store[id := ApplyUpdates(store[id], updates)]
      && Describes(r.value.value, id, r.value.store[id])
  {
    match ByUsername(store, principal)
    case NoMatch => Failure(UserNotFound)
    case NonUnique => Failure(NonUniqueResult)
    case Found(id) =>
      var updated := ApplyUpdates(store[id], updates);
      Success(Saved(ResponseFor(id, updated), store[id := updated]))
  }

  /** The update's response is what reading the current user afterwards returns. */
  lemma UpdateThenRead(store: Store, principal: string, updates: map<string, string>)
    requires UpdateCurrentUserResponse(store, principal, updates).Success?
    ensures var s := UpdateCurrentUserResponse(store, principal, updates).value;
      GetCurrentUserResponse(s.store, principal) == Success(s.value)
  {
    var s := UpdateCurrentUserResponse(store, principal, updates).value;
    ByUsernameUnchanged(store, s.store, principal);
  }

  /** Applying the same updates twice saves the same account as applying them once. */
  lemma UpdateIsIdempotent(store: Store, principal: string, updates: map<string, string>)
    requires UpdateCurrentUserResponse(store, principal, updates).Success?
    ensures var s := UpdateCurrentUserResponse(store, principal, updates).value;
      UpdateCurrentUserResponse(s.store, principal, updates) == Success(s)
  {
    var s := UpdateCurrentUserResponse(store, principal, updates).value;
    ByUsernameUnchanged(store, s.store, principal);
    var id := ByUsername(store, principal).id;
    assert s.store[id := ApplyUpdates(s.store[id], updates)] == s.store;
  }

  /** Deletion fails exactly where the id lookup fails, and with the same error. */
  lemma DeleteAgreesWithFind(store: Store, id: Id)
    ensures DeleteById(store, id).Failure? <==> FindUserByIdOrThrow(store, id).Failure?
    ensures DeleteById(store, id).Failure? ==> DeleteById(store, id).error == FindUserByIdOrThrow(store, id).error
  {
  }
}
