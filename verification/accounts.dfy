/**
 * The persisted user record, the store that holds it, and the repository
 * queries the services issue. The store is a finite map keyed by database
 * id. A derived query that expects at most one row answers `NoMatch`,
 * `Found` or `NonUnique`; the last stands for the repository's error when
 * several rows match.
 */
module Accounts {
  import opened Common
  import Jwt

  type Id = nat

  datatype Role = USER | ADMIN

  datatype Account = Account(
    username: string,
    email: string,
    password: Option<string>,          // absent for federated-only accounts
    role: Role,
    oauthProvider: Option<string>,
    oauthId: Option<string>,
    profilePictureUrl: Option<string>,
    createdAt: int,
    refreshToken: Option<Jwt.Token>,   // the single stored refresh token
    refreshTokenExpiry: Option<int>)   // its server-side expiry

  type Store = map<Id, Account>

  /** A value returned by an operation together with the store after its save. */
  datatype Saved<T> = Saved(value: T, store: Store)

  /** The exceptions the core raises, one variant per distinct failure. */
  datatype Error =
    | BadCredentials                        // rejected by the authentication manager
    | InvalidOrExpiredRefreshToken          // any verifier failure during refresh
    | InvalidTokenType                      // a verified token whose type is not "refresh"
    | UsernameNotFound
    | RefreshTokenMismatch
    | RefreshTokenExpiredInDb
    | MissingRefreshTokenExpiry             // a stored token without an expiry (null dereference)
    | TokenVerification(cause: Jwt.VerifyError)  // verifier failure surfacing unwrapped
    | UserNotFound
    | ProviderConflict                      // email already bound to a federated provider
    | MalformedEmail                        // an email with nothing but '@' characters
    | NonUniqueResult                       // a single-row query matched several rows
    | AccessDenied                          // caller lacks the ADMIN role

  datatype Lookup = NoMatch | Found(id: Id) | NonUnique

  predicate IsLeast(m: Id, ids: set<Id>)
  {
    m in ids && forall j :: j in ids ==> m <= j
  }

  lemma {:induction false} LeastExists(ids: set<Id>)
    requires ids != {}
    ensures exists m :: IsLeast(m, ids)
    decreases ids
  {
    var x :| x in ids;
    var rest := ids - {x};
    if rest == {} {
      assert ids == {x};
      assert IsLeast(x, ids);
    } else {
      LeastExists(rest);
      var m :| IsLeast(m, rest);
      var least := if x < m then x else m;
      forall j | j in ids
        ensures least <= j
      {
        if j != x {
          assert j in rest;
        }
      }
      assert IsLeast(least, ids);
    }
  }

  function Least(ids: set<Id>): (m: Id)
    requires ids != {}
    ensures IsLeast(m, ids)
  {
    LeastExists(ids);
    var m :| IsLeast(m, ids);
    m
  }

  /** The answer of a single-row query whose matching ids are `ids`. */
  function Single(ids: set<Id>): (r: Lookup)
    ensures r.NoMatch? <==> ids == {}
    ensures r.Found? ==> ids == {r.id}
    ensures r.NonUnique? ==> exists a, b :: a in ids && b in ids && a != b
  {
    if ids == {} then NoMatch
    else
      var id := Least(ids);
      if ids == {id} then Found(id)
      else
        assert exists b :: b in ids && b != id;
        NonUnique
  }

  /** findByUsername */
  function ByUsername(store: Store, username: string): (r: Lookup)
    ensures r.NoMatch? <==> forall id :: id in store ==> store[id].username != username
    ensures r.Found? ==> r.id in store && store[r.id].username == username
    ensures r.Found? ==> forall id :: id in store && store[id].username == username ==> id == r.id
    ensures r.NonUnique? ==>
      exists a, b :: a in store && b in store && a != b && store[a].username == username && store[b].username == username
  {
    var ids := set id | id in store && store[id].username == username;
    assert forall id :: id in store && store[id].username == username ==> id in ids;
    Single(ids)
  }

  /** findByEmail */
  function ByEmail(store: Store, email: string): (r: Lookup)
    ensures r.NoMatch? <==> forall id :: id in store ==> store[id].email != email
    ensures r.Found? ==> r.id in store && store[r.id].email == email
    ensures r.Found? ==> forall id :: id in store && store[id].email == email ==> id == r.id
    ensures r.NonUnique? ==>
      exists a, b :: a in store && b in store && a != b && store[a].email == email && store[b].email == email
  {
    var ids := set id | id in store && store[id].email == email;
    assert forall id :: id in store && store[id].email == email ==> id in ids;
    Single(ids)
  }

  predicate BoundTo(a: Account, provider: string, oauthId: string)
  {
    a.oauthProvider == Some(provider) && a.oauthId == Some(oauthId)
  }

  /** findByOauthProviderAndOauthId */
  function ByOAuth(store: Store, provider: string, oauthId: string): (r: Lookup)
    ensures r.NoMatch? <==> forall id :: id in store ==> !BoundTo(store[id], provider, oauthId)
    ensures r.Found? ==> r.id in store && BoundTo(store[r.id], provider, oauthId)
    ensures r.Found? ==> forall id :: id in store && BoundTo(store[id], provider, oauthId) ==> id == r.id
    ensures r.NonUnique? ==>
      exists a, b :: a in store && b in store && a != b
        && BoundTo(store[a], provider, oauthId) && BoundTo(store[b], provider, oauthId)
  {
    var ids := set id | id in store && BoundTo(store[id], provider, oauthId);
    assert forall id :: id in store && BoundTo(store[id], provider, oauthId) ==> id in ids;
    Single(ids)
  }

  /** The usernames existsByUsername answers true for. */
  function TakenUsernames(store: Store): (names: set<string>)
    ensures forall id :: id in store ==> store[id].username in names
    ensures forall u :: u in names ==> exists id :: id in store && store[id].username == u
  {
    set id | id in store :: store[id].username
  }

  /** The per-account session invariant: a stored refresh token and its expiry are present together. */
  predicate SessionConsistent(a: Account)
  {
    a.refreshToken.None? <==> a.refreshTokenExpiry.None?
  }

  predicate StoreConsistent(store: Store)
  {
    forall id :: id in store ==> SessionConsistent(store[id])
  }

  /** Usernames as the unique column the schema intends. */
  predicate UniqueUsernames(store: Store)
  {
    forall a, b :: a in store && b in store && store[a].username == store[b].username ==> a == b
  }

  /** A save that keeps every id and every username leaves the answer of findByUsername unchanged. */
  lemma ByUsernameUnchanged(before: Store, after: Store, username: string)
    requires after.Keys == before.Keys
    requires forall id :: id in before ==> after[id].username == before[id].username
    ensures ByUsername(after, username) == ByUsername(before, username)
  {
    assert (set id | id in after && after[id].username == username)
        == (set id | id in before && before[id].username == username);
  }

  /** On a store with unique usernames, findByUsername never reports several rows. */
  lemma UniqueUsernamesLookup(store: Store, username: string)
    requires UniqueUsernames(store)
    ensures !ByUsername(store, username).NonUnique?
  {
    var ids := set id | id in store && store[id].username == username;
    if ids != {} {
      var m := Least(ids);
      assert ids == {m};
    }
  }
}
