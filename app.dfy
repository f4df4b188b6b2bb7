/** The application factory's logic: the session user loader and the
    bootstrap route that creates the administrator account. */
module App {
  import opened Base
  import opened Models
  import opened Storage

  /** The reserved administrator username. */
  const AdminName: string := "admin123"

  /** `load_user`: the user the session's id names, if it still exists. */
  function LoadUser(db: Db, id: int): (u: Option<User>)
    ensures u.Some? <==> id in db.users
    ensures u.Some? ==> u.value == db.users[id]
  {
    if id in db.users then Some(db.users[id]) else None
  }

  /** `current_user` behind `login_required`: the session's user id when the
      session names an existing user, `None` for an anonymous request. */
  function CurrentUser(db: Db, session: Option<int>): (a: Option<int>)
    ensures a.Some? <==> session.Some? && session.value in db.users
    ensures a.Some? ==> a == session
  {
    if session.Some? && LoadUser(db, session.value).Some? then session else None
  }

  /** User `id` is named `username`, and `password` verifies against their
      digest under the credential service's `check`. */
  ghost predicate Verifies(db: Db, id: int, username: string, password: string, check: (string, string) -> bool) {
    id in db.users && db.users[id].username == username && check(db.users[id].password, password)
  }

  /** The row `create_admin` inserts; `digest` is the hash of the fixed password. */
  function AdminUser(digest: string): User {
    NewUser(AdminName, digest, RoleAdmin, Some(true))
  }

  /** `create_admin`: insert the administrator unless that username is taken. */
  function CreateAdminStep(db: Db, digest: string): (s: Step)
    ensures s.outcome.Err? ==> s.db == db
    ensures Valid(db) ==> Valid(s.db)
  {
    if UserNamed(db, AdminName).Some? then Step(db, Err(DuplicateUsername))
    else
      InsertUserKeepsValid(db, AdminUser(digest));
      Step(InsertUser(db, AdminUser(digest)), Ok(()))
  }

  /** Either the username is taken and nothing changes, or exactly one user
      (admin123, role admin, approved) is added under a fresh id, and no
      existing row is modified. */
  lemma CreateAdminEffect(db: Db, digest: string)
    requires Valid(db)
    ensures var s := CreateAdminStep(db, digest);
      && (s.outcome.Err? <==> NameTaken(db.users, AdminName))
      && (s.outcome.Err? ==> s.db == db)
      && (s.outcome.Ok? ==>
            && db.nextUserId !in db.users
            && s.db.users == db.users[db.nextUserId := User(AdminName, digest, RoleAdmin, true)]
            && |s.db.users| == |db.users| + 1)
      && (forall k :: k in db.users ==> k in s.db.users && s.db.users[k] == db.users[k])
      && s.db.products == db.products && s.db.carts == db.carts && s.db.orders == db.orders
  {
    var s := CreateAdminStep(db, digest);
    if s.outcome.Ok? {
      assert db.nextUserId !in db.users;
    }
  }

  /** A second call changes nothing, and afterwards exactly one user is
      named admin123. */
  lemma CreateAdminIdempotent(db: Db, digest1: string, digest2: string)
    requires Valid(db)
    ensures var once := CreateAdminStep(db, digest1).db;
      && CreateAdminStep(once, digest2).db == once
      && exists k :: k in once.users && once.users[k].username == AdminName &&
           forall j :: j in once.users && once.users[j].username == AdminName ==> j == k
  {
    var once := CreateAdminStep(db, digest1).db;
    assert Valid(once);
    if UserNamed(db, AdminName).Some? {
      var k := UserNamed(db, AdminName).value;
      assert k in once.users && once.users[k].username == AdminName;
    } else {
      var k := db.nextUserId;
      assert k in once.users && once.users[k].username == AdminName;
    }
  }

  /** The bootstrap route, updating the store in place. */
  method CreateAdmin(store: Store, digest: string) returns (r: Result<()>)
    modifies store
    ensures store.Tables() == CreateAdminStep(old(store.Tables()), digest).db
    ensures r == CreateAdminStep(old(store.Tables()), digest).outcome
  {
    if UserNamed(store.Tables(), AdminName).Some? {
      return Err(DuplicateUsername);
    }
    var _ := store.AddUser(User(AdminName, digest, RoleAdmin, true));
    return Ok(());
  }
}
