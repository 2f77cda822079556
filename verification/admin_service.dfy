/**
 * Administrative operations (AdminServiceImpl). Each is open only to a
 * caller whose role is ADMIN; the declarative role check becomes an explicit
 * test on the caller's role, passed in.
 */
module AdminService {
  import opened Common
  import opened Accounts
  import UserService

  const ADMIN_MESSAGE: string := "Only admins can see this message"

  function SayForAdmin(caller: Role): (r: Result<string, Error>)
    ensures r.Success? <==> caller == ADMIN
    ensures r.Success? ==> r.value == ADMIN_MESSAGE
    ensures r.Failure? ==> r.error == AccessDenied
  {
    if caller != ADMIN then Failure(AccessDenied) else Success(ADMIN_MESSAGE)
  }

  function GetAllUsers(caller: Role, store: Store): (r: Result<Store, Error>)
    ensures r.Success? <==> caller == ADMIN
    ensures r.Success? ==> r.value == store
    ensures r.Failure? ==> r.error == AccessDenied
  {
    if caller != ADMIN then Failure(AccessDenied) else Success(store)
  }

  function DeleteUser(caller: Role, store: Store, id: Id): (r: Result<Store, Error>)
    ensures caller != ADMIN ==> r == Failure(AccessDenied)
    ensures caller == ADMIN ==> r == UserService.DeleteById(store, id)
  {
    if caller != ADMIN then Failure(AccessDenied) else UserService.DeleteById(store, id)
  }

  function PromoteToAdmin(caller: Role, store: Store, id: Id): (r: Result<Saved<Account>, Error>)
    ensures caller != ADMIN ==> r == Failure(AccessDenied)
    ensures caller == ADMIN && id !in store ==> r == Failure(UserNotFound)
    ensures r.Success? <==> caller == ADMIN && id in store
    ensures r.Success? ==>
      && r.value.value == store[id].(role := ADMIN)
      && r.value.store == store[id := r.value.value]
  {
    if caller != ADMIN then Failure(AccessDenied)
    else
      match UserService.FindUserByIdOrThrow(store, id)
      case Failure(e) => Failure(e)
      case Success(user) =>
        var promoted := user.(role := ADMIN);
        Success(Saved(promoted, store[id := promoted]))
  }

  /** Promoting an account that is already ADMIN leaves the store as it was. */
  lemma PromotingAdminChangesNothing(store: Store, id: Id)
    requires id in store && store[id].role == ADMIN
    ensures PromoteToAdmin(ADMIN, store, id) == Success(Saved(store[id], store))
  {
    assert store[id := store[id]] == store;
  }

  /** Promotion is idempotent: promoting the promoted account again changes nothing. */
  lemma PromoteIsIdempotent(store: Store, id: Id)
    requires PromoteToAdmin(ADMIN, store, id).Success?
    ensures var s := PromoteToAdmin(ADMIN, store, id).value;
      PromoteToAdmin(ADMIN, s.store, id) == Success(s)
  {
    var s := PromoteToAdmin(ADMIN, store, id).value;
    PromotingAdminChangesNothing(s.store, id);
  }
}
