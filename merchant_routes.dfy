/** The merchant blueprint (routes/merchant_routes.py): registration and
    login, the merchant's own products, their sales, and moderation of other
    accounts. */
module MerchantRoutes {
  import opened Base
  import opened Query
  import opened Models
  import opened Storage
  import opened App

  // ================================================================ register

  /** `register`: a new merchant account, always unapproved. */
  function RegisterStep(db: Db, username: string, digest: string): (s: Step)
    ensures s.outcome.Err? ==> s.db == db
    ensures Valid(db) ==> Valid(s.db)
  {
    if UserNamed(db, username).Some? then Step(db, Err(DuplicateUsername))
    else
      InsertUserKeepsValid(db, NewUser(username, digest, RoleMerchant, Some(false)));
      Step(InsertUser(db, NewUser(username, digest, RoleMerchant, Some(false))), Ok(()))
  }

  /** A taken username is refused with nothing changed; otherwise exactly one
      unapproved merchant is added under a fresh id. */
  lemma RegisterEffect(db: Db, username: string, digest: string)
    requires Valid(db)
    ensures var s := RegisterStep(db, username, digest);
      && (s.outcome.Err? <==> NameTaken(db.users, username))
      && (s.outcome.Err? ==> s.outcome.error == DuplicateUsername && s.db == db)
      && (s.outcome.Ok? ==>
            && db.nextUserId !in db.users
            && s.db.users == db.users[db.nextUserId := User(username, digest, RoleMerchant, false)]
            && |s.db.users| == |db.users| + 1)
      && s.db.products == db.products && s.db.carts == db.carts && s.db.orders == db.orders
  {
    var s := RegisterStep(db, username, digest);
    if s.outcome.Ok? {
      assert db.nextUserId !in db.users;
    }
  }

  method Register(store: Store, username: string, digest: string) returns (r: Result<()>)
    modifies store
    ensures store.Tables() == RegisterStep(old(store.Tables()), username, digest).db
    ensures r == RegisterStep(old(store.Tables()), username, digest).outcome
  {
    if UserNamed(store.Tables(), username).Some? {
      return Err(DuplicateUsername);
    }
    var _ := store.AddUser(NewUser(username, digest, RoleMerchant, Some(false)));
    return Ok(());
  }

  // ================================================================ login

  function IsMerchantNamed(name: string): User -> bool {
    (u: User) => u.username == name && u.role == RoleMerchant
  }

  /** `login`: only merchant accounts are looked up, and they must be approved. */
  function Login(db: Db, username: string, password: string, check: (string, string) -> bool): (r: Result<Session>)
    ensures r.Ok? ==> Verifies(db, r.value.userId, username, password, check)
    ensures r.Ok? ==> db.users[r.value.userId].role == RoleMerchant && r.value.landing == MerchantDashboard
  {
    match FirstKey(db.users, IsMerchantNamed(username), 1, db.nextUserId)
    case None => Err(InvalidCredentials)
    case Some(id) =>
      var u := db.users[id];
      if !check(u.password, password) then Err(InvalidCredentials)
      else if !u.approved then Err(PendingApproval)
      else Ok(Session(id, MerchantDashboard))
  }

  /** Merchant login succeeds exactly for an approved merchant whose password
      verifies, and is pending exactly for an unapproved one. */
  lemma LoginSucceedsIff(db: Db, username: string, password: string, check: (string, string) -> bool)
    requires Valid(db)
    ensures Login(db, username, password, check).Ok? <==>
      exists id :: Verifies(db, id, username, password, check) && db.users[id].role == RoleMerchant && db.users[id].approved
    ensures Login(db, username, password, check) == Err(PendingApproval) <==>
      exists id :: Verifies(db, id, username, password, check) && db.users[id].role == RoleMerchant && !db.users[id].approved
  {
    match FirstKey(db.users, IsMerchantNamed(username), 1, db.nextUserId)
    case None =>
    case Some(id) =>
      assert Verifies(db, id, username, password, check) <==> check(db.users[id].password, password);
      forall j | Verifies(db, j, username, password, check) ensures j == id {}
  }

  // ================================================================ products

  /** `add_product`: a merchant adds a product they own. Price and stock are
      stored as given. */
  function AddProductStep(db: Db, session: Option<int>, name: string, price: int, stock: int): (s: Step)
    ensures s.outcome.Err? ==> s.db == db
    ensures Valid(db) ==> Valid(s.db)
    ensures StockNonNegative(db) && stock >= 0 ==> StockNonNegative(s.db)
  {
    match CurrentUser(db, session)
    case None => Step(db, Err(LoginRequired))
    case Some(uid) =>
      if db.users[uid].role != RoleMerchant then Step(db, Err(AccessDenied))
      else
        InsertProductKeepsValid(db, Product(name, price, stock, uid));
        Step(InsertProduct(db, Product(name, price, stock, uid)), Ok(()))
  }

  /** Only a logged-in merchant can add a product; it gets a fresh id and
      the actor as its merchant, and nothing else changes. */
  lemma AddProductEffect(db: Db, session: Option<int>, name: string, price: int, stock: int)
    requires Valid(db)
    ensures var s := AddProductStep(db, session, name, price, stock);
      && (s.outcome.Ok? <==> CurrentUser(db, session).Some? && db.users[session.value].role == RoleMerchant)
      && (s.outcome.Ok? ==>
            && db.nextProductId !in db.products
            && s.db.products == db.products[db.nextProductId := Product(name, price, stock, session.value)])
      && s.db.users == db.users && s.db.carts == db.carts && s.db.orders == db.orders
  {
    var s := AddProductStep(db, session, name, price, stock);
    if s.outcome.Ok? {
      assert db.nextProductId !in db.products;
    }
  }

  /** Nothing stops a merchant from entering a negative stock. */
  lemma AddProductAcceptsNegativeStock(db: Db, session: Option<int>, name: string, price: int, stock: int)
    requires CurrentUser(db, session).Some? && db.users[session.value].role == RoleMerchant && stock < 0
    ensures AddProductStep(db, session, name, price, stock).outcome.Ok?
    ensures !StockNonNegative(AddProductStep(db, session, name, price, stock).db)
  {
    var s := AddProductStep(db, session, name, price, stock);
    assert s.db.products[db.nextProductId].stock < 0;
  }

  method AddProduct(store: Store, session: Option<int>, name: string, price: int, stock: int) returns (r: Result<()>)
    modifies store
    ensures store.Tables() == AddProductStep(old(store.Tables()), session, name, price, stock).db
    ensures r == AddProductStep(old(store.Tables()), session, name, price, stock).outcome
  {
    var actor := CurrentUser(store.Tables(), session);
    if actor.None? {
      return Err(LoginRequired);
    }
    if store.users[actor.value].role != RoleMerchant {
      return Err(AccessDenied);
    }
    var _ := store.AddProduct(Product(name, price, stock, actor.value));
    return Ok(());
  }

  /** `restock`. `quantity` is the parsed form field; a field that is not a
      string of digits is modelled by a quantity of zero. Only ownership is
      checked, not the actor's role. */
  function RestockStep(db: Db, session: Option<int>, productId: int, quantity: int): (s: Step)
    ensures s.outcome.Err? ==> s.db == db
    ensures Valid(db) ==> Valid(s.db)
    ensures StockNonNegative(db) ==> StockNonNegative(s.db)
  {
    match CurrentUser(db, session)
    case None => Step(db, Err(LoginRequired))
    case Some(uid) =>
      if quantity <= 0 then Step(db, Err(InvalidQuantity))
      else if productId !in db.products then Step(db, Err(NotFound))
      else if db.products[productId].merchantId != uid then Step(db, Err(NotOwner))
      else
        var p := db.products[productId];
        Step(db.(products := db.products[productId := p.(stock := p.stock + quantity)]), Ok(()))
  }

  /** Restocking succeeds exactly for the owner with a positive quantity; it
      raises that product's stock by exactly `quantity`, and no other product
      or table changes. */
  lemma RestockEffect(db: Db, session: Option<int>, productId: int, quantity: int)
    requires Valid(db)
    ensures var s := RestockStep(db, session, productId, quantity);
      && (s.outcome.Ok? <==>
            CurrentUser(db, session).Some? && quantity > 0 &&
            productId in db.products && db.products[productId].merchantId == session.value)
      && (s.outcome == Err(NotOwner) <==>
            CurrentUser(db, session).Some? && quantity > 0 &&
            productId in db.products && db.products[productId].merchantId != session.value)
      && (s.outcome.Ok? ==>
            && productId in s.db.products && productId in db.products
            && s.db.products[productId] == db.products[productId].(stock := db.products[productId].stock + quantity))
      && s.db.products.Keys == db.products.Keys
      && (forall p :: p in db.products && p != productId ==> s.db.products[p] == db.products[p])
      && s.db.users == db.users && s.db.carts == db.carts && s.db.orders == db.orders
  {
  }

  method Restock(store: Store, session: Option<int>, productId: int, quantity: int) returns (r: Result<()>)
    modifies store
    ensures store.Tables() == RestockStep(old(store.Tables()), session, productId, quantity).db
    ensures r == RestockStep(old(store.Tables()), session, productId, quantity).outcome
  {
    var actor := CurrentUser(store.Tables(), session);
    if actor.None? {
      return Err(LoginRequired);
    }
    if quantity <= 0 {
      return Err(InvalidQuantity);
    }
    if productId !in store.products {
      return Err(NotFound);
    }
    var product := store.products[productId];
    if product.merchantId != actor.value {
      return Err(NotOwner);
    }
    store.products := store.products[productId := product.(stock := product.stock + quantity)];
    return Ok(());
  }

  /** `delete_product`: the owner deletes the product; its cart entries and
      orders go with it. Only ownership is checked. */
  function DeleteProductStep(db: Db, session: Option<int>, productId: int): (s: Step)
    ensures s.outcome.Err? ==> s.db == db
    ensures Valid(db) ==> Valid(s.db)
  {
    match CurrentUser(db, session)
    case None => Step(db, Err(LoginRequired))
    case Some(uid) =>
      if productId !in db.products then Step(db, Err(NotFound))
      else if db.products[productId].merchantId != uid then Step(db, Err(NotOwner))
      else Step(Models.DeleteProduct(db, productId), Ok(()))
  }

  /** Deletion succeeds exactly for the owner, and then nothing refers to the
      product any more. */
  lemma DeleteProductEffect(db: Db, session: Option<int>, productId: int)
    requires Valid(db)
    ensures var s := DeleteProductStep(db, session, productId);
      && (s.outcome.Ok? <==>
            CurrentUser(db, session).Some? && productId in db.products && db.products[productId].merchantId == session.value)
      && (s.outcome.Ok? ==>
            && s.db == Models.DeleteProduct(db, productId)
            && productId !in s.db.products
            && (forall c :: c in s.db.carts ==> s.db.carts[c].productId != productId)
            && (forall o :: o in s.db.orders ==> s.db.orders[o].productId != productId))
  {
  }

  method DeleteProduct(store: Store, session: Option<int>, productId: int) returns (r: Result<()>)
    modifies store
    ensures store.Tables() == DeleteProductStep(old(store.Tables()), session, productId).db
    ensures r == DeleteProductStep(old(store.Tables()), session, productId).outcome
  {
    var actor := CurrentUser(store.Tables(), session);
    if actor.None? {
      return Err(LoginRequired);
    }
    if productId !in store.products {
      return Err(NotFound);
    }
    if store.products[productId].merchantId != actor.value {
      return Err(NotOwner);
    }
    store.RemoveProduct(productId);
    return Ok(());
  }

  /** `update_product`: the owner overwrites name, price and stock, unvalidated. */
  function UpdateProductStep(db: Db, session: Option<int>, productId: int, name: string, price: int, stock: int): (s: Step)
    ensures s.outcome.Err? ==> s.db == db
    ensures Valid(db) ==> Valid(s.db)
    ensures StockNonNegative(db) && stock >= 0 ==> StockNonNegative(s.db)
  {
    match CurrentUser(db, session)
    case None => Step(db, Err(LoginRequired))
    case Some(uid) =>
      if productId !in db.products then Step(db, Err(NotFound))
      else if db.products[productId].merchantId != uid then Step(db, Err(NotOwner))
      else
        var p := db.products[productId];
        Step(db.(products := db.products[productId := p.(name := name, price := price, stock := stock)]), Ok(()))
  }

  /** An update succeeds exactly for the owner; it sets exactly name, price
      and stock of that product, keeps its merchant, and changes nothing else. */
  lemma UpdateProductEffect(db: Db, session: Option<int>, productId: int, name: string, price: int, stock: int)
    requires Valid(db)
    ensures var s := UpdateProductStep(db, session, productId, name, price, stock);
      && (s.outcome.Ok? <==>
            CurrentUser(db, session).Some? && productId in db.products && db.products[productId].merchantId == session.value)
      && (s.outcome.Ok? ==>
            && productId in s.db.products && productId in db.products
            && s.db.products[productId] == Product(name, price, stock, db.products[productId].merchantId))
      && s.db.products.Keys == db.products.Keys
      && (forall p :: p in db.products && p != productId ==> s.db.products[p] == db.products[p])
      && s.db.users == db.users && s.db.carts == db.carts && s.db.orders == db.orders
  {
  }

  method UpdateProduct(store: Store, session: Option<int>, productId: int, name: string, price: int, stock: int)
    returns (r: Result<()>)
    modifies store
    ensures store.Tables() == UpdateProductStep(old(store.Tables()), session, productId, name, price, stock).db
    ensures r == UpdateProductStep(old(store.Tables()), session, productId, name, price, stock).outcome
  {
    var actor := CurrentUser(store.Tables(), session);
    if actor.None? {
      return Err(LoginRequired);
    }
    if productId !in store.products {
      return Err(NotFound);
    }
    var product := store.products[productId];
    if product.merchantId != actor.value {
      return Err(NotOwner);
    }
    store.products := store.products[productId := product.(name := name, price := price, stock := stock)];
    return Ok(());
  }

  // ================================================================ sales

  function SoldBy(products: map<int, Product>, uid: int): Order -> bool {
    (o: Order) => o.productId in products && products[o.productId].merchantId == uid
  }

  /** `Order.query.join(Product).filter(Product.merchant_id == uid).all()`. */
  function SalesOf(db: Db, uid: int): seq<int> {
    KeysWhere(db.orders, SoldBy(db.products, uid), 1, db.nextOrderId)
  }

  datatype OrderRow = OrderRow(productName: string, quantity: int, buyer: string, timestamp: int)

  /** The row shown for order `oid`; building it fails when the buyer is gone. */
  function RowOf(db: Db, oid: int): Option<OrderRow> {
    if oid in db.orders && db.orders[oid].productId in db.products && db.orders[oid].userId in db.users
    then
      var o := db.orders[oid];
      Some(OrderRow(db.products[o.productId].name, o.quantity, db.users[o.userId].username, o.timestamp))
    else None
  }

  /** The list comprehension: a row per order, or failure if any row fails. */
  function Rows(db: Db, ids: seq<int>): (r: Option<seq<OrderRow>>)
    ensures r.Some? <==> forall i :: 0 <= i < |ids| ==> RowOf(db, ids[i]).Some?
    ensures r.Some? ==> |r.value| == |ids| && forall i :: 0 <= i < |ids| ==> r.value[i] == RowOf(db, ids[i]).value
    decreases |ids|
  {
    if ids == [] then Some([])
    else match RowOf(db, ids[0])
      case None => None
      case Some(row) =>
        match Rows(db, ids[1..])
        case None => None
        case Some(rest) => Some([row] + rest)
  }

  /** `view_orders`: the merchant's sales. */
  function ViewOrders(db: Db, session: Option<int>): (r: Result<seq<OrderRow>>)
    ensures r == Err(LoginRequired) <==> CurrentUser(db, session).None?
    ensures r == Err(AccessDenied) <==> CurrentUser(db, session).Some? && db.users[session.value].role != RoleMerchant
    ensures r.Ok? ==>
      && session.Some? && |r.value| == |SalesOf(db, session.value)|
      && forall i :: 0 <= i < |r.value| ==> Some(r.value[i]) == RowOf(db, SalesOf(db, session.value)[i])
    ensures r == Err(ServerError) ==>
      session.Some? && exists i :: 0 <= i < |SalesOf(db, session.value)| && RowOf(db, SalesOf(db, session.value)[i]).None?
    ensures CurrentUser(db, session).Some? && db.users[session.value].role == RoleMerchant ==>
      && (r.Ok? <==> forall i :: 0 <= i < |SalesOf(db, session.value)| ==> RowOf(db, SalesOf(db, session.value)[i]).Some?)
      && (r.Err? ==> r.error == ServerError)
  {
    match CurrentUser(db, session)
    case None => Err(LoginRequired)
    case Some(uid) =>
      if db.users[uid].role != RoleMerchant then Err(AccessDenied)
      else match Rows(db, SalesOf(db, uid))
        case None => Err(ServerError)
        case Some(rows) => Ok(rows)
  }

  /** A merchant sees exactly the orders of their own products, one row each
      in id order; in a consistent database building the rows never fails. */
  lemma ViewOrdersExact(db: Db, session: Option<int>)
    requires Valid(db)
    ensures var r := ViewOrders(db, session);
      && (r.Ok? <==> CurrentUser(db, session).Some? && db.users[session.value].role == RoleMerchant)
      && (r.Ok? ==>
            && session.Some?
            && (forall k :: k in SalesOf(db, session.value) <==>
                  k in db.orders && OwnedBy(db, db.orders[k].productId, session.value))
            && |r.value| == |SalesOf(db, session.value)|
            && forall i :: 0 <= i < |r.value| ==> Some(r.value[i]) == RowOf(db, SalesOf(db, session.value)[i]))
  {
    if CurrentUser(db, session).Some? && db.users[session.value].role == RoleMerchant {
      var uid := session.value;
      var ids := SalesOf(db, uid);
      forall i | 0 <= i < |ids| ensures RowOf(db, ids[i]).Some? {
        assert ids[i] in db.orders;
      }
      forall k | k in db.orders && OwnedBy(db, db.orders[k].productId, uid) ensures k in ids {
        assert SoldBy(db.products, uid)(db.orders[k]);
      }
    }
  }

  // ================================================================ moderation

  /** The accounts a merchant may approve or delete. */
  predicate Moderatable(u: User) {
    u.role == RoleUser || u.role == RoleMerchant
  }

  /** `approve_user`: a merchant approves a customer or merchant account;
      any other target is silently left alone. Either way the handler then
      redirects to `merchant.manage_users`, an endpoint no route defines, so
      every request that passes the role gate ends in a server error, after
      the approval has been committed. */
  function ApproveUserStep(db: Db, session: Option<int>, target: int): (s: Step)
    ensures s.outcome != Err(ServerError) ==> s.db == db
    ensures s.outcome != Ok(())
    ensures Valid(db) ==> Valid(s.db)
  {
    match CurrentUser(db, session)
    case None => Step(db, Err(LoginRequired))
    case Some(uid) =>
      if db.users[uid].role != RoleMerchant then Step(db, Err(AccessDenied))
      else if target in db.users && Moderatable(db.users[target])
      then Step(db.(users := db.users[target := db.users[target].(approved := true)]), Err(ServerError))
      else Step(db, Err(ServerError))
  }

  /** Only merchants get past the gate, only customer and merchant accounts
      are approved, no other user (in particular no administrator) changes,
      and the request never completes normally. */
  lemma ApproveUserEffect(db: Db, session: Option<int>, target: int)
    requires Valid(db)
    ensures var s := ApproveUserStep(db, session, target);
      && (s.outcome == Err(LoginRequired) <==> CurrentUser(db, session).None?)
      && (s.outcome == Err(AccessDenied) <==> CurrentUser(db, session).Some? && db.users[session.value].role != RoleMerchant)
      && (s.outcome == Err(ServerError) <==> CurrentUser(db, session).Some? && db.users[session.value].role == RoleMerchant)
      && (s.outcome == Err(ServerError) && target in db.users && Moderatable(db.users[target]) ==>
            s.db.users == db.users[target := db.users[target].(approved := true)])
      && (target !in db.users || !Moderatable(db.users[target]) ==> s.db == db)
      && s.db.users.Keys == db.users.Keys
      && (forall k :: k in db.users && k != target ==> s.db.users[k] == db.users[k])
      && (forall k :: k in db.users && db.users[k].role == RoleAdmin ==> s.db.users[k] == db.users[k])
      && s.db.products == db.products && s.db.carts == db.carts && s.db.orders == db.orders
  {
  }

  method ApproveUser(store: Store, session: Option<int>, target: int) returns (r: Result<()>)
    modifies store
    ensures store.Tables() == ApproveUserStep(old(store.Tables()), session, target).db
    ensures r == ApproveUserStep(old(store.Tables()), session, target).outcome
  {
    var actor := CurrentUser(store.Tables(), session);
    if actor.None? {
      return Err(LoginRequired);
    }
    if store.users[actor.value].role != RoleMerchant {
      return Err(AccessDenied);
    }
    if target in store.users && Moderatable(store.users[target]) {
      store.users := store.users[target := store.users[target].(approved := true)];
    }
    return Err(ServerError);
  }

  /** `delete_user`: a merchant deletes a customer or merchant account, with
      the cascades models.py declares. As in `approve_user`, the closing
      redirect to the undefined `merchant.manage_users` turns every request
      past the role gate into a server error, after the commit. */
  function DeleteUserStep(db: Db, session: Option<int>, target: int): (s: Step)
    ensures s.outcome != Err(ServerError) ==> s.db == db
    ensures s.outcome != Ok(())
    ensures Valid(db) ==> Valid(s.db)
  {
    match CurrentUser(db, session)
    case None => Step(db, Err(LoginRequired))
    case Some(uid) =>
      if db.users[uid].role != RoleMerchant then Step(db, Err(AccessDenied))
      else if target in db.users && Moderatable(db.users[target]) then Step(Models.DeleteUser(db, target), Err(ServerError))
      else Step(db, Err(ServerError))
  }

  /** Only merchants get past the gate, only customer and merchant accounts
      are deleted, every administrator survives unchanged, and the request
      never completes normally. */
  lemma DeleteUserEffect(db: Db, session: Option<int>, target: int)
    requires Valid(db)
    ensures var s := DeleteUserStep(db, session, target);
      && (s.outcome == Err(LoginRequired) <==> CurrentUser(db, session).None?)
      && (s.outcome == Err(AccessDenied) <==> CurrentUser(db, session).Some? && db.users[session.value].role != RoleMerchant)
      && (s.outcome == Err(ServerError) <==> CurrentUser(db, session).Some? && db.users[session.value].role == RoleMerchant)
      && (s.outcome == Err(ServerError) && target in db.users && Moderatable(db.users[target]) ==>
            s.db == Models.DeleteUser(db, target))
      && (target !in db.users || !Moderatable(db.users[target]) ==> s.db == db)
      && (forall k :: k in db.users && db.users[k].role == RoleAdmin ==> k in s.db.users && s.db.users[k] == db.users[k])
  {
  }

  method DeleteUser(store: Store, session: Option<int>, target: int) returns (r: Result<()>)
    modifies store
    ensures store.Tables() == DeleteUserStep(old(store.Tables()), session, target).db
    ensures r == DeleteUserStep(old(store.Tables()), session, target).outcome
  {
    var actor := CurrentUser(store.Tables(), session);
    if actor.None? {
      return Err(LoginRequired);
    }
    if store.users[actor.value].role != RoleMerchant {
      return Err(AccessDenied);
    }
    if target in store.users && Moderatable(store.users[target]) {
      store.RemoveUser(target);
    }
    return Err(ServerError);
  }
}
