/** The four tables of models.py, the integrity they are declared with, and the
    cascading deletes their relationship annotations declare. */
module Models {
  import opened Base
  import opened Query

  /** The role strings the handlers test for; the column itself is free text. */
  const RoleUser: string := "user"
  const RoleMerchant: string := "merchant"
  const RoleAdmin: string := "admin"

  /** `password` holds the digest the credential service produced. */
  datatype User = User(username: string, password: string, role: string, approved: bool)

  /** `price` is a whole number of cents; the source stores a float. */
  datatype Product = Product(name: string, price: int, stock: int, merchantId: int)

  datatype CartEntry = CartEntry(userId: int, productId: int, quantity: int)

  /** `timestamp` is a tick of the database clock, standing in for `utcnow`. */
  datatype Order = Order(userId: int, productId: int, quantity: int, timestamp: int)

  /** The database: each table keyed by primary key, the next id each table
      hands out, and a clock that ticks once per order. */
  datatype Db = Db(
    users: map<int, User>,
    products: map<int, Product>,
    carts: map<int, CartEntry>,
    orders: map<int, Order>,
    nextUserId: int,
    nextProductId: int,
    nextCartId: int,
    nextOrderId: int,
    clock: int)

  const Empty: Db := Db(map[], map[], map[], map[], 1, 1, 1, 1, 0)

  /** A route's effect: the database after it, and what it reported. */
  datatype Step = Step(db: Db, outcome: Result<()>)

  /** A user row; `approved` falls back to the column default when not given. */
  function NewUser(username: string, password: string, role: string, approved: Option<bool>): (u: User)
    ensures u.username == username && u.password == password && u.role == role
    ensures approved.None? ==> !u.approved
    ensures approved.Some? ==> u.approved == approved.value
  {
    User(username, password, role, if approved.Some? then approved.value else false)
  }

  // ---------------------------------------------------------------- integrity

  /** Primary keys are positive and below the counter of their table. */
  ghost predicate IdsInRange(db: Db) {
    && 1 <= db.nextUserId && 1 <= db.nextProductId && 1 <= db.nextCartId && 1 <= db.nextOrderId
    && (forall k :: k in db.users ==> 1 <= k < db.nextUserId)
    && (forall k :: k in db.products ==> 1 <= k < db.nextProductId)
    && (forall k :: k in db.carts ==> 1 <= k < db.nextCartId)
    && (forall k :: k in db.orders ==> 1 <= k < db.nextOrderId)
  }

  /** `username` is declared unique. */
  ghost predicate UniqueUsernames(users: map<int, User>) {
    forall a, b :: a in users && b in users && users[a].username == users[b].username ==> a == b
  }

  /** Every foreign key names an existing row. */
  ghost predicate RefIntegrity(db: Db) {
    && (forall p :: p in db.products ==> db.products[p].merchantId in db.users)
    && (forall c :: c in db.carts ==> db.carts[c].userId in db.users && db.carts[c].productId in db.products)
    && (forall o :: o in db.orders ==> db.orders[o].userId in db.users && db.orders[o].productId in db.products)
  }

  /** At most one cart entry per (user, product) pair. */
  ghost predicate OneEntryPerPair(carts: map<int, CartEntry>) {
    forall a, b ::
      a in carts && b in carts && carts[a].userId == carts[b].userId && carts[a].productId == carts[b].productId
      ==> a == b
  }

  /** Orders are stamped before the clock's current tick, later ids later. */
  ghost predicate Chronological(db: Db) {
    && (forall k :: k in db.orders ==> db.orders[k].timestamp < db.clock)
    && (forall a, b :: a in db.orders && b in db.orders && a < b ==> db.orders[a].timestamp < db.orders[b].timestamp)
  }

  /** The invariant every handler keeps. */
  ghost predicate Valid(db: Db) {
    IdsInRange(db) && UniqueUsernames(db.users) && RefIntegrity(db) && OneEntryPerPair(db.carts) && Chronological(db)
  }

  /** No product has negative stock. The schema does not demand it. */
  ghost predicate StockNonNegative(db: Db) {
    forall p :: p in db.products ==> db.products[p].stock >= 0
  }

  lemma EmptyIsValid()
    ensures Valid(Empty) && StockNonNegative(Empty)
  {
  }

  // ---------------------------------------------------------------- lookups

  function HasName(name: string): User -> bool {
    (u: User) => u.username == name
  }

  ghost predicate NameTaken(users: map<int, User>, name: string) {
    exists k :: k in users && users[k].username == name
  }

  /** `User.query.filter_by(username=name).first()`. */
  function UserNamed(db: Db, name: string): (r: Option<int>)
    ensures r.Some? ==> r.value in db.users && db.users[r.value].username == name
    ensures IdsInRange(db) ==> (r.Some? <==> NameTaken(db.users, name))
  {
    FirstKey(db.users, HasName(name), 1, db.nextUserId)
  }

  // ---------------------------------------------------------------- inserts

  /** `db.session.add` of a new user: it gets the next user id. */
  function InsertUser(db: Db, u: User): Db {
    db.(users := db.users[db.nextUserId := u], nextUserId := db.nextUserId + 1)
  }

  /** `db.session.add` of a new product. */
  function InsertProduct(db: Db, p: Product): Db {
    db.(products := db.products[db.nextProductId := p], nextProductId := db.nextProductId + 1)
  }

  /** `db.session.add` of a new cart entry. */
  function InsertCart(db: Db, c: CartEntry): Db {
    db.(carts := db.carts[db.nextCartId := c], nextCartId := db.nextCartId + 1)
  }

  /** An order is stamped with the current tick, and the clock moves on. */
  function InsertOrder(db: Db, userId: int, productId: int, quantity: int): Db {
    db.(orders := db.orders[db.nextOrderId := Order(userId, productId, quantity, db.clock)],
        nextOrderId := db.nextOrderId + 1, clock := db.clock + 1)
  }

  /** Each insert gives the new row the next id of its table, advances that
      counter, keeps every other row and leaves the other tables alone. */
  lemma InsertUserAddsOneRow(db: Db, u: User)
    ensures var r := InsertUser(db, u);
      && db.nextUserId in r.users && r.users[db.nextUserId] == u
      && r.users.Keys == db.users.Keys + {db.nextUserId}
      && (forall k :: k in db.users && k != db.nextUserId ==> r.users[k] == db.users[k])
      && r.nextUserId == db.nextUserId + 1
      && r.(users := db.users, nextUserId := db.nextUserId) == db
  {
  }

  lemma InsertProductAddsOneRow(db: Db, p: Product)
    ensures var r := InsertProduct(db, p);
      && db.nextProductId in r.products && r.products[db.nextProductId] == p
      && r.products.Keys == db.products.Keys + {db.nextProductId}
      && (forall k :: k in db.products && k != db.nextProductId ==> r.products[k] == db.products[k])
      && r.nextProductId == db.nextProductId + 1
      && r.(products := db.products, nextProductId := db.nextProductId) == db
  {
  }

  lemma InsertCartAddsOneRow(db: Db, c: CartEntry)
    ensures var r := InsertCart(db, c);
      && db.nextCartId in r.carts && r.carts[db.nextCartId] == c
      && r.carts.Keys == db.carts.Keys + {db.nextCartId}
      && (forall k :: k in db.carts && k != db.nextCartId ==> r.carts[k] == db.carts[k])
      && r.nextCartId == db.nextCartId + 1
      && r.(carts := db.carts, nextCartId := db.nextCartId) == db
  {
  }

  /** An order is also stamped with the current tick, and the clock moves on. */
  lemma InsertOrderAddsOneRow(db: Db, userId: int, productId: int, quantity: int)
    ensures var r := InsertOrder(db, userId, productId, quantity);
      && db.nextOrderId in r.orders && r.orders[db.nextOrderId] == Order(userId, productId, quantity, db.clock)
      && r.orders.Keys == db.orders.Keys + {db.nextOrderId}
      && (forall k :: k in db.orders && k != db.nextOrderId ==> r.orders[k] == db.orders[k])
      && r.nextOrderId == db.nextOrderId + 1 && r.clock == db.clock + 1
      && r.(orders := db.orders, nextOrderId := db.nextOrderId, clock := db.clock) == db
  {
  }

  /** A user whose name is free keeps the invariant. */
  lemma InsertUserKeepsValid(db: Db, u: User)
    requires Valid(db) ==> !NameTaken(db.users, u.username)
    ensures Valid(db) ==> Valid(InsertUser(db, u))
  {
    if Valid(db) {
      var r := InsertUser(db, u);
      assert IdsInRange(r);
      assert UniqueUsernames(r.users) by {
        assert forall k :: k in db.users ==> db.users[k].username != u.username;
      }
      assert RefIntegrity(r);
    }
  }

  /** A product of an existing merchant keeps the invariant. */
  lemma InsertProductKeepsValid(db: Db, p: Product)
    requires Valid(db) ==> p.merchantId in db.users
    ensures Valid(db) ==> Valid(InsertProduct(db, p))
  {
    if Valid(db) {
      var r := InsertProduct(db, p);
      assert IdsInRange(r);
      assert RefIntegrity(r);
    }
  }

  // ---------------------------------------------------------------- deletes

  ghost predicate SubMap<V>(a: map<int, V>, b: map<int, V>) {
    forall k :: k in a ==> k in b && a[k] == b[k]
  }

  /** Removing rows keeps every part of the invariant except referential
      integrity, which each delete has to re-establish for itself. */
  lemma {:induction false} RemovingRowsKeepsValid(db: Db, r: Db)
    requires Valid(db) ==> RefIntegrity(r)
    requires SubMap(r.users, db.users) && SubMap(r.products, db.products)
    requires SubMap(r.carts, db.carts) && SubMap(r.orders, db.orders)
    requires r.nextUserId == db.nextUserId && r.nextProductId == db.nextProductId
    requires r.nextCartId == db.nextCartId && r.nextOrderId == db.nextOrderId && r.clock == db.clock
    ensures Valid(db) ==> Valid(r)
  {
    if Valid(db) {
      assert IdsInRange(r);
      assert UniqueUsernames(r.users);
      assert OneEntryPerPair(r.carts);
      assert Chronological(r);
    }
  }

  /** Deleting one cart row; nothing depends on a cart row. */
  function DeleteCart(db: Db, cid: int): (r: Db)
    ensures r.carts == db.carts - {cid}
    ensures r.(carts := db.carts) == db
    ensures Valid(db) ==> Valid(r)
  {
    db.(carts := db.carts - {cid})
  }

  /** The cart rows that survive deleting every row `gone` selects. */
  function CartsWithout(carts: map<int, CartEntry>, gone: CartEntry -> bool): (m: map<int, CartEntry>)
    ensures forall c :: c in m <==> c in carts && !gone(carts[c])
    ensures forall c :: c in m ==> m[c] == carts[c]
  {
    map c | c in carts && !gone(carts[c]) :: carts[c]
  }

  /** The order rows that survive deleting every row `gone` selects. */
  function OrdersWithout(orders: map<int, Order>, gone: Order -> bool): (m: map<int, Order>)
    ensures forall o :: o in m <==> o in orders && !gone(orders[o])
    ensures forall o :: o in m ==> m[o] == orders[o]
  {
    map o | o in orders && !gone(orders[o]) :: orders[o]
  }

  /** The product rows that survive deleting the products of merchant `uid`. */
  function ProductsWithout(products: map<int, Product>, uid: int): (m: map<int, Product>)
    ensures forall p :: p in m <==> p in products && products[p].merchantId != uid
    ensures forall p :: p in m ==> m[p] == products[p]
  {
    map p | p in products && products[p].merchantId != uid :: products[p]
  }

  function NamesProduct(pid: int): CartEntry -> bool {
    (c: CartEntry) => c.productId == pid
  }

  function OrderNamesProduct(pid: int): Order -> bool {
    (o: Order) => o.productId == pid
  }

  /** Deleting a product through the session: `Product.orders` and
      `Product.carts` cascade, so every cart entry and order naming it goes too. */
  function DeleteProduct(db: Db, pid: int): (r: Db)
    ensures r.users == db.users && r.products == db.products - {pid}
    ensures forall c :: c in r.carts <==> c in db.carts && db.carts[c].productId != pid
    ensures forall c :: c in r.carts ==> r.carts[c] == db.carts[c]
    ensures forall o :: o in r.orders <==> o in db.orders && db.orders[o].productId != pid
    ensures forall o :: o in r.orders ==> r.orders[o] == db.orders[o]
    ensures r.(products := db.products, carts := db.carts, orders := db.orders) == db
    ensures Valid(db) ==> Valid(r)
  {
    var r := db.(products := db.products - {pid},
                 carts := CartsWithout(db.carts, NamesProduct(pid)),
                 orders := OrdersWithout(db.orders, OrderNamesProduct(pid)));
    assert Valid(db) ==> RefIntegrity(r) by {
      if Valid(db) {
        forall c | c in r.carts ensures r.carts[c].userId in r.users && r.carts[c].productId in r.products {
          assert !NamesProduct(pid)(db.carts[c]);
        }
        forall o | o in r.orders ensures r.orders[o].userId in r.users && r.orders[o].productId in r.products {
          assert !OrderNamesProduct(pid)(db.orders[o]);
        }
      }
    }
    RemovingRowsKeepsValid(db, r);
    r
  }

  /** Product `pid` exists and belongs to merchant `uid`. */
  predicate OwnedBy(db: Db, pid: int, uid: int) {
    pid in db.products && db.products[pid].merchantId == uid
  }

  /** A cart row goes with user `uid` when it is theirs or names one of their products. */
  function CartGoesWith(products: map<int, Product>, uid: int): CartEntry -> bool {
    (c: CartEntry) => c.userId == uid || (c.productId in products && products[c.productId].merchantId == uid)
  }

  /** Likewise for an order row. */
  function OrderGoesWith(products: map<int, Product>, uid: int): Order -> bool {
    (o: Order) => o.userId == uid || (o.productId in products && products[o.productId].merchantId == uid)
  }

  /** Deleting a user through the session: `User.orders`, `User.carts` and
      `User.products` cascade, and each deleted product cascades to its own
      cart entries and orders. */
  function DeleteUser(db: Db, uid: int): (r: Db)
    ensures r.users == db.users - {uid}
    ensures forall p :: p in r.products <==> p in db.products && db.products[p].merchantId != uid
    ensures forall c :: c in r.carts <==>
      c in db.carts && db.carts[c].userId != uid && !OwnedBy(db, db.carts[c].productId, uid)
    ensures forall o :: o in r.orders <==>
      o in db.orders && db.orders[o].userId != uid && !OwnedBy(db, db.orders[o].productId, uid)
    ensures forall p :: p in r.products ==> r.products[p] == db.products[p]
    ensures forall c :: c in r.carts ==> r.carts[c] == db.carts[c]
    ensures forall o :: o in r.orders ==> r.orders[o] == db.orders[o]
    ensures r.(users := db.users, products := db.products, carts := db.carts, orders := db.orders) == db
    ensures Valid(db) ==> Valid(r)
  {
    var r := db.(users := db.users - {uid},
                 products := ProductsWithout(db.products, uid),
                 carts := CartsWithout(db.carts, CartGoesWith(db.products, uid)),
                 orders := OrdersWithout(db.orders, OrderGoesWith(db.products, uid)));
    DeleteUserKeepsIntegrity(db, uid, r);
    RemovingRowsKeepsValid(db, r);
    r
  }

  /** The rows a user deletion keeps still refer only to rows it keeps. */
  lemma DeleteUserKeepsIntegrity(db: Db, uid: int, r: Db)
    requires r.users == db.users - {uid}
    requires forall p :: p in r.products <==> p in db.products && db.products[p].merchantId != uid
    requires forall c :: c in r.carts <==> c in db.carts && !CartGoesWith(db.products, uid)(db.carts[c])
    requires forall o :: o in r.orders <==> o in db.orders && !OrderGoesWith(db.products, uid)(db.orders[o])
    requires forall p :: p in r.products ==> r.products[p] == db.products[p]
    requires forall c :: c in r.carts ==> r.carts[c] == db.carts[c]
    requires forall o :: o in r.orders ==> r.orders[o] == db.orders[o]
    ensures Valid(db) ==> RefIntegrity(r)
  {
    if Valid(db) {
      forall c | c in r.carts ensures r.carts[c].userId in r.users && r.carts[c].productId in r.products {
        assert !CartGoesWith(db.products, uid)(db.carts[c]);
      }
      forall o | o in r.orders ensures r.orders[o].userId in r.users && r.orders[o].productId in r.products {
        assert !OrderGoesWith(db.products, uid)(db.orders[o]);
      }
    }
  }

  /** The bulk `Order.query.filter_by(user_id=uid).delete()`. */
  function DeleteOrdersOf(db: Db, uid: int): (r: Db)
    ensures forall o :: o in r.orders <==> o in db.orders && db.orders[o].userId != uid
    ensures forall o :: o in r.orders ==> r.orders[o] == db.orders[o]
    ensures r.(orders := db.orders) == db
    ensures Valid(db) ==> Valid(r)
  {
    db.(orders := map o | o in db.orders && db.orders[o].userId != uid :: db.orders[o])
  }

  /** The bulk `Cart.query.filter_by(user_id=uid).delete()`. */
  function DeleteCartsOf(db: Db, uid: int): (r: Db)
    ensures forall c :: c in r.carts <==> c in db.carts && db.carts[c].userId != uid
    ensures forall c :: c in r.carts ==> r.carts[c] == db.carts[c]
    ensures r.(carts := db.carts) == db
    ensures Valid(db) ==> Valid(r)
  {
    db.(carts := map c | c in db.carts && db.carts[c].userId != uid :: db.carts[c])
  }

  /** Deleting a user's orders and cart entries before the user changes
      nothing the cascade would not have done anyway. */
  lemma {:induction false} BulkDeletesSubsumed(db: Db, uid: int)
    ensures DeleteUser(DeleteCartsOf(DeleteOrdersOf(db, uid), uid), uid) == DeleteUser(db, uid)
  {
    var mid := DeleteCartsOf(DeleteOrdersOf(db, uid), uid);
    assert mid.(orders := db.orders, carts := db.carts) == db;
    var a := DeleteUser(mid, uid);
    var b := DeleteUser(db, uid);
    SameCascadeCarts(db, mid, uid);
    SameCascadeOrders(db, mid, uid);
    assert a.products == b.products by {
      forall p ensures p in a.products <==> p in b.products {}
      forall p | p in a.products ensures a.products[p] == b.products[p] {}
    }
  }

  /** The carts a user deletion keeps do not depend on whether the user's
      own entries were removed beforehand. */
  lemma {:induction false} SameCascadeCarts(db: Db, mid: Db, uid: int)
    requires mid.products == db.products
    requires forall c :: c in mid.carts <==> c in db.carts && db.carts[c].userId != uid
    requires forall c :: c in mid.carts ==> mid.carts[c] == db.carts[c]
    ensures DeleteUser(mid, uid).carts == DeleteUser(db, uid).carts
  {
    var a := DeleteUser(mid, uid).carts;
    var b := DeleteUser(db, uid).carts;
    forall c ensures c in a <==> c in b {}
    forall c | c in a ensures a[c] == b[c] {}
  }

  /** Likewise for the orders. */
  lemma {:induction false} SameCascadeOrders(db: Db, mid: Db, uid: int)
    requires mid.products == db.products
    requires forall o :: o in mid.orders <==> o in db.orders && db.orders[o].userId != uid
    requires forall o :: o in mid.orders ==> mid.orders[o] == db.orders[o]
    ensures DeleteUser(mid, uid).orders == DeleteUser(db, uid).orders
  {
    var a := DeleteUser(mid, uid).orders;
    var b := DeleteUser(db, uid).orders;
    forall o ensures o in a <==> o in b {}
    forall o | o in a ensures a[o] == b[o] {}
  }

  /** After a user is deleted no row refers to them any more. */
  lemma DeleteUserLeavesNoReference(db: Db, uid: int)
    requires Valid(db)
    ensures var r := DeleteUser(db, uid);
      && uid !in r.users
      && (forall p :: p in r.products ==> r.products[p].merchantId != uid)
      && (forall c :: c in r.carts ==> r.carts[c].userId != uid)
      && (forall o :: o in r.orders ==> r.orders[o].userId != uid)
  {
  }
}
