/** The database session the handlers work through: one object holding the
    four tables and their counters, whose fields the handlers update in place. */
module Storage {
  import opened Models

  class Store {
    var users: map<int, User>
    var products: map<int, Product>
    var carts: map<int, CartEntry>
    var orders: map<int, Order>
    var nextUserId: int
    var nextProductId: int
    var nextCartId: int
    var nextOrderId: int
    var clock: int

    /** The tables as a value. */
    function Tables(): Db
      reads this
    {
      Db(users, products, carts, orders, nextUserId, nextProductId, nextCartId, nextOrderId, clock)
    }

    /** A fresh, empty database. */
    constructor ()
      ensures Tables() == Empty
    {
      users, products, carts, orders := map[], map[], map[], map[];
      nextUserId, nextProductId, nextCartId, nextOrderId, clock := 1, 1, 1, 1, 0;
    }

    /** `db.session.add(user)`: the row gets the next id. */
    method AddUser(u: User) returns (id: int)
      modifies this
      ensures Tables() == InsertUser(old(Tables()), u)
      ensures id == old(nextUserId)
    {
      id := nextUserId;
      users := users[id := u];
      nextUserId := nextUserId + 1;
    }

    method AddProduct(p: Product) returns (id: int)
      modifies this
      ensures Tables() == InsertProduct(old(Tables()), p)
      ensures id == old(nextProductId)
    {
      id := nextProductId;
      products := products[id := p];
      nextProductId := nextProductId + 1;
    }

    method AddCart(c: CartEntry) returns (id: int)
      modifies this
      ensures Tables() == InsertCart(old(Tables()), c)
      ensures id == old(nextCartId)
    {
      id := nextCartId;
      carts := carts[id := c];
      nextCartId := nextCartId + 1;
    }

    /** `db.session.add(Order(...))`: the order is stamped with the current tick. */
    method AddOrder(userId: int, productId: int, quantity: int) returns (id: int)
      modifies this
      ensures Tables() == InsertOrder(old(Tables()), userId, productId, quantity)
      ensures id == old(nextOrderId)
    {
      id := nextOrderId;
      orders := orders[id := Order(userId, productId, quantity, clock)];
      nextOrderId := nextOrderId + 1;
      clock := clock + 1;
    }

    /** `db.session.delete(cart_item)`. */
    method RemoveCart(cid: int)
      modifies this
      ensures Tables() == DeleteCart(old(Tables()), cid)
    {
      carts := carts - {cid};
    }

    /** `db.session.delete(product)`, with the cascades models.py declares. */
    method RemoveProduct(pid: int)
      modifies this
      ensures Tables() == DeleteProduct(old(Tables()), pid)
    {
      carts := CartsWithout(carts, NamesProduct(pid));
      orders := OrdersWithout(orders, OrderNamesProduct(pid));
      products := products - {pid};
    }

    /** `db.session.delete(user)`, with the cascades models.py declares. */
    method RemoveUser(uid: int)
      modifies this
      ensures Tables() == DeleteUser(old(Tables()), uid)
    {
      carts := CartsWithout(carts, CartGoesWith(products, uid));
      orders := OrdersWithout(orders, OrderGoesWith(products, uid));
      products := ProductsWithout(products, uid);
      users := users - {uid};
    }

    /** `Order.query.filter_by(user_id=uid).delete()`. */
    method RemoveOrdersOf(uid: int)
      modifies this
      ensures Tables() == DeleteOrdersOf(old(Tables()), uid)
    {
      orders := map o | o in orders && orders[o].userId != uid :: orders[o];
    }

    /** `Cart.query.filter_by(user_id=uid).delete()`. */
    method RemoveCartsOf(uid: int)
      modifies this
      ensures Tables() == DeleteCartsOf(old(Tables()), uid)
    {
      carts := map c | c in carts && carts[c].userId != uid :: carts[c];
    }
  }
}
