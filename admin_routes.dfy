/** The administrator blueprint (routes/admin_routes.py): login, the role
    gate in front of every page, the listings, and account moderation. */
module AdminRoutes {
  import opened Base
  import opened Query
  import opened Models
  import opened Storage
  import opened App

  // ================================================================ login

  function IsAdminNamed(name: string): User -> bool {
    (u: User) => u.username == name && u.role == RoleAdmin
  }

  /** `login`: only administrator accounts are looked up; approval is not
      consulted. */
  function Login(db: Db, username: string, password: string, check: (string, string) -> bool): (r: Result<Session>)
    ensures r.Ok? ==> Verifies(db, r.value.userId, username, password, check)
    ensures r.Ok? ==> db.users[r.value.userId].role == RoleAdmin && r.value.landing == AdminDashboard
    ensures r.Err? ==> r.error == InvalidCredentials
  {
    match FirstKey(db.users, IsAdminNamed(username), 1, db.nextUserId)
    case None => Err(InvalidCredentials)
    case Some(id) =>
      if check(db.users[id].password, password) then Ok(Session(id, AdminDashboard))
      else Err(InvalidCredentials)
  }

  /** Administrator login succeeds exactly when an administrator of that name
      exists and the password verifies, approved or not. */
  lemma LoginSucceedsIff(db: Db, username: string, password: string, check: (string, string) -> bool)
    requires Valid(db)
    ensures Login(db, username, password, check).Ok? <==>
      exists id :: Verifies(db, id, username, password, check) && db.users[id].role == RoleAdmin
  {
    match FirstKey(db.users, IsAdminNamed(username), 1, db.nextUserId)
    case None =>
    case Some(id) =>
      assert Verifies(db, id, username, password, check) <==> check(db.users[id].password, password);
      forall j | Verifies(db, j, username, password, check) ensures j == id {}
  }

  // ================================================================ gate

  /** `login_required` followed by `current_user.role != 'admin'`: the
      administrator's id, or why the page is refused. */
  function AdminGate(db: Db, session: Option<int>): (r: Result<int>)
    ensures r.Ok? <==> session.Some? && session.value in db.users && db.users[session.value].role == RoleAdmin
    ensures r.Ok? ==> r.value == session.value
    ensures r == Err(LoginRequired) <==> CurrentUser(db, session).None?
  {
    match CurrentUser(db, session)
    case None => Err(LoginRequired)
    case Some(uid) => if db.users[uid].role != RoleAdmin then Err(AccessDenied) else Ok(uid)
  }

  /** `dashboard`: only the gate. */
  function Dashboard(db: Db, session: Option<int>): (r: Result<()>)
    ensures r.Ok? <==> AdminGate(db, session).Ok?
  {
    match AdminGate(db, session)
    case Err(e) => Err(e)
    case Ok(_) => Ok(())
  }

  // ================================================================ listings

  function HasRole(role: string): User -> bool {
    (u: User) => u.role == role
  }

  function AnyProduct(): Product -> bool {
    (p: Product) => true
  }

  function AnyOrder(): Order -> bool {
    (o: Order) => true
  }

  datatype UserLists = UserLists(customers: seq<int>, merchants: seq<int>)

  /** `view_users`: the accounts with role `user` and those with role
      `merchant`, each in id order. */
  function ViewUsers(db: Db, session: Option<int>): (r: Result<UserLists>)
    ensures r.Ok? <==> AdminGate(db, session).Ok?
    ensures r.Ok? ==> forall i :: 0 <= i < |r.value.customers| ==>
      r.value.customers[i] in db.users && db.users[r.value.customers[i]].role == RoleUser
    ensures r.Ok? ==> forall i :: 0 <= i < |r.value.merchants| ==>
      r.value.merchants[i] in db.users && db.users[r.value.merchants[i]].role == RoleMerchant
  {
    match AdminGate(db, session)
    case Err(e) => Err(e)
    case Ok(_) =>
      Ok(UserLists(KeysWhere(db.users, HasRole(RoleUser), 1, db.nextUserId),
                   KeysWhere(db.users, HasRole(RoleMerchant), 1, db.nextUserId)))
  }

  /** The two lists hold exactly the customer and the merchant accounts, so
      they are disjoint and no administrator appears in either. */
  lemma ViewUsersPartition(db: Db, session: Option<int>)
    requires Valid(db)
    ensures var r := ViewUsers(db, session);
      && (r.Ok? <==> AdminGate(db, session).Ok?)
      && (r.Ok? ==>
            && (forall k :: k in r.value.customers <==> k in db.users && db.users[k].role == RoleUser)
            && (forall k :: k in r.value.merchants <==> k in db.users && db.users[k].role == RoleMerchant)
            && (forall k :: k in db.users && db.users[k].role == RoleAdmin ==>
                  k !in r.value.customers && k !in r.value.merchants)
            && (forall k :: k in r.value.customers ==> k !in r.value.merchants))
  {
    var r := ViewUsers(db, session);
    if r.Ok? {
      forall k | k in db.users && db.users[k].role == RoleUser ensures k in r.value.customers {
        assert HasRole(RoleUser)(db.users[k]);
      }
      forall k | k in db.users && db.users[k].role == RoleMerchant ensures k in r.value.merchants {
        assert HasRole(RoleMerchant)(db.users[k]);
      }
    }
  }

  /** `view_products`: every product, in id order. */
  function ViewProducts(db: Db, session: Option<int>): (r: Result<seq<int>>)
    ensures r.Ok? <==> AdminGate(db, session).Ok?
    ensures r.Ok? ==> forall i, j :: 0 <= i < j < |r.value| ==> r.value[i] < r.value[j]
    ensures r.Ok? ==> forall i :: 0 <= i < |r.value| ==> r.value[i] in db.products
  {
    match AdminGate(db, session)
    case Err(e) => Err(e)
    case Ok(_) => Ok(KeysWhere(db.products, AnyProduct(), 1, db.nextProductId))
  }

  /** `view_orders`: every order, in id order. */
  function ViewOrders(db: Db, session: Option<int>): (r: Result<seq<int>>)
    ensures r.Ok? <==> AdminGate(db, session).Ok?
    ensures r.Ok? ==> forall i, j :: 0 <= i < j < |r.value| ==> r.value[i] < r.value[j]
    ensures r.Ok? ==> forall i :: 0 <= i < |r.value| ==> r.value[i] in db.orders
  {
    match AdminGate(db, session)
    case Err(e) => Err(e)
    case Ok(_) => Ok(KeysWhere(db.orders, AnyOrder(), 1, db.nextOrderId))
  }

  /** An administrator sees every product and every order, each exactly once
      and in id order; anyone else sees neither. */
  lemma ViewAllIsComplete(db: Db, session: Option<int>)
    requires Valid(db)
    ensures ViewProducts(db, session).Ok? <==> AdminGate(db, session).Ok?
    ensures ViewOrders(db, session).Ok? <==> AdminGate(db, session).Ok?
    ensures ViewProducts(db, session).Ok? ==>
      && (forall k :: k in ViewProducts(db, session).value <==> k in db.products)
      && (forall i, j :: 0 <= i < j < |ViewProducts(db, session).value| ==>
            ViewProducts(db, session).value[i] < ViewProducts(db, session).value[j])
    ensures ViewOrders(db, session).Ok? ==>
      && (forall k :: k in ViewOrders(db, session).value <==> k in db.orders)
      && (forall i, j :: 0 <= i < j < |ViewOrders(db, session).value| ==>
            ViewOrders(db, session).value[i] < ViewOrders(db, session).value[j])
  {
    if AdminGate(db, session).Ok? {
      forall k | k in db.products ensures k in ViewProducts(db, session).value {
        assert AnyProduct()(db.products[k]);
      }
      forall k | k in db.orders ensures k in ViewOrders(db, session).value {
        assert AnyOrder()(db.orders[k]);
      }
    }
  }

  // ================================================================ moderation

  /** `approve_user`: an administrator approves any existing account; a
      missing id is ignored. */
  function ApproveUserStep(db: Db, session: Option<int>, target: int): (s: Step)
    ensures s.outcome.Err? ==> s.db == db
    ensures Valid(db) ==> Valid(s.db)
  {
    match AdminGate(db, session)
    case Err(e) => Step(db, Err(e))
    case Ok(_) =>
      if target in db.users then Step(db.(users := db.users[target := db.users[target].(approved := true)]), Ok(()))
      else Step(db, Ok(()))
  }

  /** Approval marks exactly the target approved, whatever its role, and
      changes no other user or table; a missing target changes nothing. */
  lemma ApproveUserEffect(db: Db, session: Option<int>, target: int)
    requires Valid(db)
    ensures var s := ApproveUserStep(db, session, target);
      && (s.outcome.Ok? <==> AdminGate(db, session).Ok?)
      && (s.outcome.Ok? && target in db.users ==>
            target in s.db.users && s.db.users[target] == db.users[target].(approved := true))
      && (target !in db.users ==> s.db == db)
      && s.db.users.Keys == db.users.Keys
      && (forall k :: k in db.users && k != target ==> s.db.users[k] == db.users[k])
      && s.db.products == db.products && s.db.carts == db.carts && s.db.orders == db.orders
  {
  }

  /** Approving twice is the same as approving once. */
  lemma ApproveUserIdempotent(db: Db, session: Option<int>, target: int)
    requires Valid(db)
    ensures var once := ApproveUserStep(db, session, target);
      ApproveUserStep(once.db, session, target) == once
  {
    var once := ApproveUserStep(db, session, target);
    if target in db.users && AdminGate(db, session).Ok? {
      assert once.db.users[target].approved;
      assert once.db.users[target].(approved := true) == once.db.users[target];
      assert once.db.users[target := once.db.users[target].(approved := true)] == once.db.users;
    }
  }

  method ApproveUser(store: Store, session: Option<int>, target: int) returns (r: Result<()>)
    modifies store
    ensures store.Tables() == ApproveUserStep(old(store.Tables()), session, target).db
    ensures r == ApproveUserStep(old(store.Tables()), session, target).outcome
  {
    var gate := AdminGate(store.Tables(), session);
    if gate.Err? {
      return Err(gate.error);
    }
    if target in store.users {
      store.users := store.users[target := store.users[target].(approved := true)];
    }
    return Ok(());
  }

  /** `delete_user`: the target's orders and cart entries are deleted in bulk,
      then the user row itself, which cascades as models.py declares. */
  function DeleteUserStep(db: Db, session: Option<int>, target: int): (s: Step)
    ensures s.outcome.Err? ==> s.db == db
    ensures Valid(db) ==> Valid(s.db)
  {
    match AdminGate(db, session)
    case Err(e) => Step(db, Err(e))
    case Ok(_) =>
      if target in db.users then Step(Models.DeleteUser(DeleteCartsOf(DeleteOrdersOf(db, target), target), target), Ok(()))
      else Step(db, Ok(()))
  }

  /** The explicit bulk deletes are subsumed by the declared cascade: the
      result is that of deleting the user alone. Afterwards no row refers to
      the user, and a missing target changes nothing. */
  lemma DeleteUserIsCascade(db: Db, session: Option<int>, target: int)
    requires Valid(db)
    ensures var s := DeleteUserStep(db, session, target);
      && (s.outcome.Ok? <==> AdminGate(db, session).Ok?)
      && (s.outcome.Ok? && target in db.users ==> s.db == Models.DeleteUser(db, target))
      && (target !in db.users ==> s.db == db)
      && (s.outcome.Ok? ==>
            && target !in s.db.users
            && (forall o :: o in s.db.orders ==> s.db.orders[o].userId != target)
            && (forall c :: c in s.db.carts ==> s.db.carts[c].userId != target))
  {
    var s := DeleteUserStep(db, session, target);
    if s.outcome.Ok? && target in db.users {
      BulkDeletesSubsumed(db, target);
      DeleteUserLeavesNoReference(db, target);
    }
  }

  method DeleteUser(store: Store, session: Option<int>, target: int) returns (r: Result<()>)
    modifies store
    ensures store.Tables() == DeleteUserStep(old(store.Tables()), session, target).db
    ensures r == DeleteUserStep(old(store.Tables()), session, target).outcome
  {
    var gate := AdminGate(store.Tables(), session);
    if gate.Err? {
      return Err(gate.error);
    }
    if target in store.users {
      store.RemoveOrdersOf(target);
      store.RemoveCartsOf(target);
      store.RemoveUser(target);
    }
    return Ok(());
  }
}
