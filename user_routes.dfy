/** The customer blueprint (routes/user_routes.py): registration, login, the
    cart, order history and direct purchase. Each route is a step function on
    the database value, and a handler that performs it on the store. */
module UserRoutes {
  import opened Base
  import opened Query
  import opened Models
  import opened Storage
  import opened App

  // ================================================================ register

  /** `request.form.get('role', 'user')`: whatever role the form sent. */
  function FormRole(role: Option<string>): (r: string)
    ensures role.Some? ==> r == role.value
    ensures role.None? ==> r == RoleUser
  {
    if role.Some? then role.value else RoleUser
  }

  function RegisterStep(db: Db, username: string, digest: string, role: Option<string>): (s: Step)
    ensures s.outcome.Err? ==> s.db == db
    ensures Valid(db) ==> Valid(s.db)
  {
    if UserNamed(db, username).Some? then Step(db, Err(DuplicateUsername))
    else
      InsertUserKeepsValid(db, NewUser(username, digest, FormRole(role), Some(false)));
      Step(InsertUser(db, NewUser(username, digest, FormRole(role), Some(false))), Ok(()))
  }

  /** A taken username is refused with nothing changed; otherwise exactly one
      unapproved user with the form's role is added under a fresh id. */
  lemma RegisterEffect(db: Db, username: string, digest: string, role: Option<string>)
    requires Valid(db)
    ensures var s := RegisterStep(db, username, digest, role);
      && (s.outcome.Err? <==> NameTaken(db.users, username))
      && (s.outcome.Err? ==> s.outcome.error == DuplicateUsername && s.db == db)
      && (s.outcome.Ok? ==>
            && db.nextUserId !in db.users
            && s.db.users == db.users[db.nextUserId := User(username, digest, FormRole(role), false)]
            && |s.db.users| == |db.users| + 1)
      && s.db.products == db.products && s.db.carts == db.carts && s.db.orders == db.orders
  {
    var s := RegisterStep(db, username, digest, role);
    if s.outcome.Ok? {
      assert db.nextUserId !in db.users;
    }
  }

  method Register(store: Store, username: string, digest: string, role: Option<string>) returns (r: Result<()>)
    modifies store
    ensures store.Tables() == RegisterStep(old(store.Tables()), username, digest, role).db
    ensures r == RegisterStep(old(store.Tables()), username, digest, role).outcome
  {
    if UserNamed(store.Tables(), username).Some? {
      return Err(DuplicateUsername);
    }
    var _ := store.AddUser(NewUser(username, digest, FormRole(role), Some(false)));
    return Ok(());
  }

  // ================================================================ login

  /** The redirect by role after a successful login. */
  function LandingFor(role: string): (l: Landing)
    ensures l == UserHome <==> role == RoleUser
    ensures l == MerchantDashboard <==> role == RoleMerchant
    ensures l == AdminDashboard <==> role == RoleAdmin
  {
    if role == RoleUser then UserHome
    else if role == RoleMerchant then MerchantDashboard
    else if role == RoleAdmin then AdminDashboard
    else LoginPage
  }

  /** The shared login form. `check(digest, password)` is the credential
      service's verification. A user whose role is none of the three known
      ones is logged in and then shown the login page again. */
  function Login(db: Db, username: string, password: string, check: (string, string) -> bool): (r: Result<Session>)
    ensures r.Ok? ==> r.value.userId in db.users && db.users[r.value.userId].username == username
    ensures r.Ok? ==> Verifies(db, r.value.userId, username, password, check)
    ensures r.Ok? ==> r.value.landing == LandingFor(db.users[r.value.userId].role)
  {
    match UserNamed(db, username)
    case None => Err(InvalidCredentials)
    case Some(id) =>
      var u := db.users[id];
      if !check(u.password, password) then Err(InvalidCredentials)
      else if !u.approved && u.role != RoleAdmin then Err(PendingApproval)
      else Ok(Session(id, LandingFor(u.role)))
  }

  /** Login succeeds exactly when the password verifies and the user is
      approved or an administrator; it is pending exactly when the password
      verifies for an unapproved non-administrator. */
  lemma LoginSucceedsIff(db: Db, username: string, password: string, check: (string, string) -> bool)
    requires Valid(db)
    ensures Login(db, username, password, check).Ok? <==>
      exists id :: Verifies(db, id, username, password, check) && (db.users[id].approved || db.users[id].role == RoleAdmin)
    ensures Login(db, username, password, check) == Err(PendingApproval) <==>
      exists id :: Verifies(db, id, username, password, check) && !db.users[id].approved && db.users[id].role != RoleAdmin
  {
    var r := Login(db, username, password, check);
    match UserNamed(db, username)
    case None =>
    case Some(id) =>
      assert Verifies(db, id, username, password, check) <==> check(db.users[id].password, password);
      forall j | Verifies(db, j, username, password, check) ensures j == id {}
  }

  // ================================================================ cart

  function IsPair(uid: int, pid: int): CartEntry -> bool {
    (c: CartEntry) => c.userId == uid && c.productId == pid
  }

  ghost predicate EntryOfPair(db: Db, c: int, uid: int, pid: int) {
    c in db.carts && db.carts[c].userId == uid && db.carts[c].productId == pid
  }

  /** `Cart.query.filter_by(user_id=uid, product_id=pid).first()`. */
  function EntryFor(db: Db, uid: int, pid: int): (r: Option<int>)
    ensures r.Some? ==> EntryOfPair(db, r.value, uid, pid)
    ensures IdsInRange(db) && r.None? ==> forall c :: !EntryOfPair(db, c, uid, pid)
  {
    FirstKey(db.carts, IsPair(uid, pid), 1, db.nextCartId)
  }

  /** `existing.quantity += quantity`. */
  function Merge(db: Db, cid: int, quantity: int): Db
    requires cid in db.carts
  {
    db.(carts := db.carts[cid := db.carts[cid].(quantity := db.carts[cid].quantity + quantity)])
  }

  /** Merging grows exactly entry `cid` by `quantity`; every other entry
      and every other table stay. */
  lemma MergeGrowsOneEntry(db: Db, cid: int, quantity: int)
    requires cid in db.carts
    ensures var r := Merge(db, cid, quantity);
      && r.carts.Keys == db.carts.Keys
      && r.carts[cid] == db.carts[cid].(quantity := db.carts[cid].quantity + quantity)
      && (forall k :: k in db.carts && k != cid ==> r.carts[k] == db.carts[k])
      && r.(carts := db.carts) == db
  {
  }

  /** `add_to_cart`. The quantity is not required to be positive, and the
      amount already in the cart is not weighed against the stock. */
  function AddToCartStep(db: Db, session: Option<int>, productId: int, quantity: int): (s: Step)
    ensures s.outcome.Err? ==> s.db == db
    ensures s.db.products == db.products
    ensures Valid(db) ==> Valid(s.db)
  {
    match CurrentUser(db, session)
    case None => Step(db, Err(LoginRequired))
    case Some(uid) =>
      if productId !in db.products || db.products[productId].stock < quantity then Step(db, Err(Unavailable))
      else match EntryFor(db, uid, productId)
        case Some(cid) =>
          MergeKeepsValid(db, cid, quantity);
          Step(Merge(db, cid, quantity), Ok(()))
        case None =>
          InsertCartKeepsValid(db, CartEntry(uid, productId, quantity));
          Step(InsertCart(db, CartEntry(uid, productId, quantity)), Ok(()))
  }

  /** Growing an entry's quantity keeps the invariant. */
  lemma MergeKeepsValid(db: Db, cid: int, quantity: int)
    requires cid in db.carts
    ensures Valid(db) ==> Valid(Merge(db, cid, quantity))
  {
    if Valid(db) {
      var r := Merge(db, cid, quantity);
      assert RefIntegrity(r);
      assert OneEntryPerPair(r.carts);
    }
  }

  /** A new entry for a pair that has none keeps the invariant. */
  lemma InsertCartKeepsValid(db: Db, entry: CartEntry)
    requires Valid(db) ==> entry.userId in db.users && entry.productId in db.products
    requires Valid(db) ==> forall c :: !EntryOfPair(db, c, entry.userId, entry.productId)
    ensures Valid(db) ==> Valid(InsertCart(db, entry))
  {
    if Valid(db) {
      var r := InsertCart(db, entry);
      assert IdsInRange(r);
      assert RefIntegrity(r);
      assert OneEntryPerPair(r.carts) by {
        assert forall k :: k in db.carts ==> !EntryOfPair(db, k, entry.userId, entry.productId);
      }
    }
  }

  /** The refusals, and the two ways of succeeding: an existing entry for the
      pair grows by `quantity`, or one new entry is inserted. Users, products
      (so stock) and orders never change. */
  lemma AddToCartEffect(db: Db, session: Option<int>, productId: int, quantity: int)
    requires IdsInRange(db) && OneEntryPerPair(db.carts)
    ensures var s := AddToCartStep(db, session, productId, quantity);
      && (s.outcome == Err(LoginRequired) <==> CurrentUser(db, session).None?)
      && (s.outcome == Err(Unavailable) <==>
            CurrentUser(db, session).Some? && (productId !in db.products || db.products[productId].stock < quantity))
      && (s.outcome.Ok? <==>
            CurrentUser(db, session).Some? && productId in db.products && quantity <= db.products[productId].stock)
      && (s.outcome.Ok? ==>
            && session.Some?
            && (forall c :: EntryOfPair(db, c, session.value, productId) ==>
                  s.db.carts == db.carts[c := db.carts[c].(quantity := db.carts[c].quantity + quantity)])
            && ((forall c :: !EntryOfPair(db, c, session.value, productId)) ==>
                  db.nextCartId !in db.carts && s.db.carts == db.carts[db.nextCartId := CartEntry(session.value, productId, quantity)]))
      && s.db.users == db.users && s.db.orders == db.orders
  {
    var s := AddToCartStep(db, session, productId, quantity);
    if s.outcome.Ok? {
      var uid := session.value;
      match EntryFor(db, uid, productId)
      case Some(cid) =>
        EntryIsUnique(db, cid, uid, productId);
      case None =>
        assert db.nextCartId !in db.carts;
    }
  }

  /** Under the one-entry-per-pair invariant the entry of a pair is unique. */
  lemma EntryIsUnique(db: Db, cid: int, uid: int, pid: int)
    requires OneEntryPerPair(db.carts) && EntryOfPair(db, cid, uid, pid)
    ensures forall c :: EntryOfPair(db, c, uid, pid) ==> c == cid
  {
  }

  method AddToCart(store: Store, session: Option<int>, productId: int, quantity: int) returns (r: Result<()>)
    modifies store
    ensures store.Tables() == AddToCartStep(old(store.Tables()), session, productId, quantity).db
    ensures r == AddToCartStep(old(store.Tables()), session, productId, quantity).outcome
  {
    var actor := CurrentUser(store.Tables(), session);
    if actor.None? {
      return Err(LoginRequired);
    }
    var uid := actor.value;
    if productId !in store.products || store.products[productId].stock < quantity {
      return Err(Unavailable);
    }
    var existing := EntryFor(store.Tables(), uid, productId);
    if existing.Some? {
      var cid := existing.value;
      store.carts := store.carts[cid := store.carts[cid].(quantity := store.carts[cid].quantity + quantity)];
    } else {
      var _ := store.AddCart(CartEntry(uid, productId, quantity));
    }
    return Ok(());
  }

  // ================================================================ view cart

  function BelongsTo(uid: int): CartEntry -> bool {
    (c: CartEntry) => c.userId == uid
  }

  /** `Cart.query.filter_by(user_id=uid).all()`. */
  function CartIds(db: Db, uid: int): seq<int> {
    KeysWhere(db.carts, BelongsTo(uid), 1, db.nextCartId)
  }

  /** What entry `cid` adds to the cart total: price times quantity while its
      product exists, nothing once the product is gone. */
  function Subtotal(db: Db, cid: int): int {
    if cid in db.carts && db.carts[cid].productId in db.products
    then db.products[db.carts[cid].productId].price * db.carts[cid].quantity
    else 0
  }

  function Total(db: Db, ids: seq<int>): int
    decreases |ids|
  {
    if ids == [] then 0 else Total(db, ids[..|ids| - 1]) + Subtotal(db, ids[|ids| - 1])
  }

  /** The actor's cart total as `view_cart` shows it. */
  function CartTotal(db: Db, uid: int): int {
    Total(db, CartIds(db, uid))
  }

  datatype CartLine = CartLine(productId: int, product: Product, quantity: int, subtotal: int)
  datatype CartView = CartView(lines: seq<CartLine>, total: int)

  function LineOf(db: Db, cid: int): seq<CartLine> {
    if cid in db.carts && db.carts[cid].productId in db.products
    then
      var e := db.carts[cid];
      var p := db.products[e.productId];
      [CartLine(e.productId, p, e.quantity, p.price * e.quantity)]
    else []
  }

  /** One line per entry whose product still exists, in query order. */
  function Lines(db: Db, ids: seq<int>): seq<CartLine>
    decreases |ids|
  {
    if ids == [] then [] else Lines(db, ids[..|ids| - 1]) + LineOf(db, ids[|ids| - 1])
  }

  function SumOfSubtotals(lines: seq<CartLine>): int
    decreases |lines|
  {
    if lines == [] then 0 else SumOfSubtotals(lines[..|lines| - 1]) + lines[|lines| - 1].subtotal
  }

  /** The page `view_cart` renders. */
  function CartPage(db: Db, session: Option<int>): (r: Result<CartView>)
    ensures r.Err? <==> CurrentUser(db, session).None?
    ensures r.Err? ==> r.error == LoginRequired
  {
    match CurrentUser(db, session)
    case None => Err(LoginRequired)
    case Some(uid) => Ok(CartView(Lines(db, CartIds(db, uid)), CartTotal(db, uid)))
  }

  /** A line's subtotal is its product's price times its quantity. */
  predicate Priced(l: CartLine) {
    l.subtotal == l.product.price * l.quantity
  }

  /** The total shown is the sum of the subtotals of the lines shown, and
      every line's subtotal is its product's price times its quantity. */
  lemma LinesAddUpToTotal(db: Db, ids: seq<int>)
    ensures SumOfSubtotals(Lines(db, ids)) == Total(db, ids)
    ensures forall i :: 0 <= i < |Lines(db, ids)| ==> Priced(Lines(db, ids)[i])
  {
    LinesSumToTotal(db, ids);
    LinesArePriced(db, ids);
  }

  /** The page `view_cart` renders shows the logged-in actor's lines, each
      priced at price times quantity, and a total that is their sum. */
  lemma CartPageAddsUp(db: Db, session: Option<int>)
    ensures var r := CartPage(db, session);
      r.Ok? ==>
        && session.Some?
        && (forall i :: 0 <= i < |r.value.lines| ==> Priced(r.value.lines[i]))
        && r.value.total == SumOfSubtotals(r.value.lines)
  {
    if CurrentUser(db, session).Some? {
      LinesAddUpToTotal(db, CartIds(db, session.value));
    }
  }

  lemma {:induction false} LinesSumToTotal(db: Db, ids: seq<int>)
    ensures SumOfSubtotals(Lines(db, ids)) == Total(db, ids)
    decreases |ids|
  {
    if ids != [] {
      var init, last := ids[..|ids| - 1], ids[|ids| - 1];
      LinesSumToTotal(db, init);
      var front, tail := Lines(db, init), LineOf(db, last);
      assert Lines(db, ids) == front + tail;
      if tail == [] {
        assert front + tail == front;
      } else {
        var all := front + tail;
        assert all[..|all| - 1] == front;
        assert all[|all| - 1] == tail[0];
        assert tail[0].subtotal == Subtotal(db, last);
      }
    }
  }

  lemma {:induction false} LinesArePriced(db: Db, ids: seq<int>)
    ensures forall i :: 0 <= i < |Lines(db, ids)| ==> Priced(Lines(db, ids)[i])
    decreases |ids|
  {
    if ids != [] {
      var init, last := ids[..|ids| - 1], ids[|ids| - 1];
      LinesArePriced(db, init);
      var front, tail := Lines(db, init), LineOf(db, last);
      assert Lines(db, ids) == front + tail;
      forall i | 0 <= i < |front + tail| ensures Priced((front + tail)[i]) {
        if i < |front| {
          assert (front + tail)[i] == front[i];
        } else {
          assert (front + tail)[i] == tail[i - |front|];
        }
      }
    }
  }

  lemma ExtendByOne(db: Db, ids: seq<int>, i: int)
    requires 0 <= i < |ids|
    ensures Lines(db, ids[..i + 1]) == Lines(db, ids[..i]) + LineOf(db, ids[i])
    ensures Total(db, ids[..i + 1]) == Total(db, ids[..i]) + Subtotal(db, ids[i])
  {
    assert ids[..i + 1][..i] == ids[..i];
  }

  /** `view_cart`: walk the actor's entries, skipping those whose product is
      gone, and accumulate the total. */
  method ViewCart(store: Store, session: Option<int>) returns (r: Result<CartView>)
    ensures r == CartPage(store.Tables(), session)
  {
    var db := store.Tables();
    var actor := CurrentUser(db, session);
    if actor.None? {
      return Err(LoginRequired);
    }
    var items := CartIds(db, actor.value);
    var lines: seq<CartLine> := [];
    var total := 0;
    var i := 0;
    while i < |items|
      invariant 0 <= i <= |items|
      invariant lines == Lines(db, items[..i])
      invariant total == Total(db, items[..i])
    {
      var cid := items[i];
      ExtendByOne(db, items, i);
      var item := db.carts[cid];
      if item.productId in db.products {
        var product := db.products[item.productId];
        var subtotal := product.price * item.quantity;
        lines := lines + [CartLine(item.productId, product, item.quantity, subtotal)];
        total := total + subtotal;
      }
      i := i + 1;
    }
    assert items[..i] == items;
    return Ok(CartView(lines, total));
  }

  /** Changing the subtotal of one entry `cid` by `delta` changes the total
      over a list that holds `cid` once by exactly `delta`. */
  lemma {:induction false} TotalChangesAt(db1: Db, db2: Db, ids: seq<int>, cid: int, delta: int)
    requires forall i, j :: 0 <= i < j < |ids| ==> ids[i] < ids[j]
    requires forall k :: k != cid ==> Subtotal(db2, k) == Subtotal(db1, k)
    requires Subtotal(db2, cid) == Subtotal(db1, cid) + delta
    ensures Total(db2, ids) == Total(db1, ids) + (if cid in ids then delta else 0)
    decreases |ids|
  {
    if ids != [] {
      var init, last := ids[..|ids| - 1], ids[|ids| - 1];
      assert forall k :: k in init ==> k < last by {
        forall k | k in init ensures k < last {
          var i :| 0 <= i < |init| && init[i] == k;
          assert ids[i] == k;
        }
      }
      TotalChangesAt(db1, db2, init, cid, delta);
      assert cid in ids <==> cid in init || cid == last;
    }
  }

  lemma MulAdd(a: int, b: int, c: int)
    ensures a * (b + c) == a * b + a * c
  {
  }

  /** Merging changes the subtotal of the merged entry by price times
      `quantity`, and no other subtotal. */
  lemma MergeSubtotals(db: Db, cid: int, quantity: int)
    requires cid in db.carts && db.carts[cid].productId in db.products
    ensures forall k :: k != cid ==> Subtotal(Merge(db, cid, quantity), k) == Subtotal(db, k)
    ensures Subtotal(Merge(db, cid, quantity), cid)
         == Subtotal(db, cid) + db.products[db.carts[cid].productId].price * quantity
  {
    MulAdd(db.products[db.carts[cid].productId].price, db.carts[cid].quantity, quantity);
  }

  /** Merging keeps the owner's cart query, which holds the merged entry. */
  lemma MergeKeepsCartIds(db: Db, uid: int, cid: int, quantity: int)
    requires IdsInRange(db) && cid in db.carts && db.carts[cid].userId == uid
    ensures CartIds(Merge(db, cid, quantity), uid) == CartIds(db, uid)
    ensures cid in CartIds(db, uid)
  {
    KeysWhereFrame(db.carts, BelongsTo(uid), Merge(db, cid, quantity).carts, BelongsTo(uid), 1, db.nextCartId);
    assert BelongsTo(uid)(db.carts[cid]);
  }

  /** Merging into entry `cid` raises the owner's total by price times `quantity`. */
  lemma MergeRaisesTotal(db: Db, uid: int, cid: int, quantity: int)
    requires IdsInRange(db) && cid in db.carts && db.carts[cid].userId == uid
    requires db.carts[cid].productId in db.products
    ensures CartTotal(Merge(db, cid, quantity), uid)
         == CartTotal(db, uid) + db.products[db.carts[cid].productId].price * quantity
  {
    MergeKeepsCartIds(db, uid, cid, quantity);
    MergeSubtotals(db, cid, quantity);
    TotalChangesAt(db, Merge(db, cid, quantity), CartIds(db, uid), cid,
                   db.products[db.carts[cid].productId].price * quantity);
  }

  /** A new entry of `uid` lands at the end of their cart query. */
  lemma InsertedEntryComesLast(db: Db, uid: int, entry: CartEntry)
    requires IdsInRange(db) && entry.userId == uid
    ensures CartIds(InsertCart(db, entry), uid) == CartIds(db, uid) + [db.nextCartId]
  {
    var db2 := InsertCart(db, entry);
    KeysWhereFrame(db.carts, BelongsTo(uid), db2.carts, BelongsTo(uid), 1, db.nextCartId);
  }

  lemma TotalSnoc(db: Db, ids: seq<int>, cid: int)
    ensures Total(db, ids + [cid]) == Total(db, ids) + Subtotal(db, cid)
  {
    assert (ids + [cid])[..|ids|] == ids;
  }

  /** Inserting an entry changes only the subtotal under the new id. */
  lemma InsertSubtotals(db: Db, entry: CartEntry)
    requires IdsInRange(db) && entry.productId in db.products
    ensures forall k :: k != db.nextCartId ==> Subtotal(InsertCart(db, entry), k) == Subtotal(db, k)
    ensures Subtotal(InsertCart(db, entry), db.nextCartId) == db.products[entry.productId].price * entry.quantity
    ensures Subtotal(db, db.nextCartId) == 0
  {
    assert db.nextCartId !in db.carts;
  }

  /** A new entry raises its owner's total by its price times its quantity. */
  lemma InsertRaisesTotal(db: Db, uid: int, productId: int, quantity: int)
    requires IdsInRange(db) && productId in db.products
    ensures CartTotal(InsertCart(db, CartEntry(uid, productId, quantity)), uid)
         == CartTotal(db, uid) + db.products[productId].price * quantity
  {
    var entry := CartEntry(uid, productId, quantity);
    var db2 := InsertCart(db, entry);
    var ids := CartIds(db, uid);
    InsertedEntryComesLast(db, uid, entry);
    TotalSnoc(db2, ids, db.nextCartId);
    InsertSubtotals(db, entry);
    assert db.nextCartId !in ids;
    TotalChangesAt(db, db2, ids, db.nextCartId, db.products[productId].price * quantity);
  }

  /** Adding `quantity` of a product to the cart raises the cart total by
      exactly its price times `quantity`, whether the entry is merged or new. */
  lemma AddToCartRaisesTotal(db: Db, session: Option<int>, productId: int, quantity: int)
    requires Valid(db)
    requires AddToCartStep(db, session, productId, quantity).outcome.Ok?
    ensures session.Some? && productId in db.products
    ensures CartTotal(AddToCartStep(db, session, productId, quantity).db, session.value)
         == CartTotal(db, session.value) + db.products[productId].price * quantity
  {
    var uid := session.value;
    match EntryFor(db, uid, productId)
    case Some(cid) => MergeRaisesTotal(db, uid, cid, quantity);
    case None => InsertRaisesTotal(db, uid, productId, quantity);
  }

  // ================================================================ remove from cart

  /** `remove_from_cart`: delete the actor's entry for the product if there is one. */
  function RemoveFromCartStep(db: Db, session: Option<int>, productId: int): (s: Step)
    ensures s.outcome.Err? ==> s.db == db
    ensures s.db.users == db.users && s.db.products == db.products && s.db.orders == db.orders
    ensures Valid(db) ==> Valid(s.db)
  {
    match CurrentUser(db, session)
    case None => Step(db, Err(LoginRequired))
    case Some(uid) =>
      match EntryFor(db, uid, productId)
      case Some(cid) => Step(DeleteCart(db, cid), Ok(()))
      case None => Step(db, Ok(()))
  }

  /** After removal the actor has no entry for the product, and every other
      entry is still there, unchanged. */
  lemma RemoveFromCartEffect(db: Db, session: Option<int>, productId: int)
    requires Valid(db)
    ensures var s := RemoveFromCartStep(db, session, productId);
      && (s.outcome.Err? <==> CurrentUser(db, session).None?)
      && (s.outcome.Ok? ==>
            && session.Some?
            && forall c :: c in s.db.carts <==> c in db.carts && !EntryOfPair(db, c, session.value, productId))
      && (forall c :: c in s.db.carts ==> s.db.carts[c] == db.carts[c])
  {
    var s := RemoveFromCartStep(db, session, productId);
    if s.outcome.Ok? {
      var uid := session.value;
      match EntryFor(db, uid, productId)
      case Some(cid) =>
        forall c | c in db.carts && EntryOfPair(db, c, uid, productId) ensures c == cid {}
      case None =>
    }
  }

  /** Removing twice is removing once. */
  lemma RemoveFromCartIdempotent(db: Db, session: Option<int>, productId: int)
    requires Valid(db)
    ensures var once := RemoveFromCartStep(db, session, productId);
      RemoveFromCartStep(once.db, session, productId) == once
  {
    var once := RemoveFromCartStep(db, session, productId);
    RemoveFromCartEffect(db, session, productId);
    if once.outcome.Ok? {
      var uid := session.value;
      assert forall c :: !EntryOfPair(once.db, c, uid, productId);
    }
  }

  method RemoveFromCart(store: Store, session: Option<int>, productId: int) returns (r: Result<()>)
    modifies store
    ensures store.Tables() == RemoveFromCartStep(old(store.Tables()), session, productId).db
    ensures r == RemoveFromCartStep(old(store.Tables()), session, productId).outcome
  {
    var actor := CurrentUser(store.Tables(), session);
    if actor.None? {
      return Err(LoginRequired);
    }
    var item := EntryFor(store.Tables(), actor.value, productId);
    if item.Some? {
      store.RemoveCart(item.value);
    }
    return Ok(());
  }

  // ================================================================ order history

  function PlacedBy(uid: int): Order -> bool {
    (o: Order) => o.userId == uid
  }

  /** `view_orders`: the actor's orders, newest first. Ids ascend with
      timestamps, so the id list read backwards is in descending time order. */
  function ViewOrders(db: Db, session: Option<int>): (r: Result<seq<int>>)
    ensures r.Err? <==> CurrentUser(db, session).None?
    ensures r.Ok? ==>
      && session.Some?
      && forall i :: 0 <= i < |r.value| ==> r.value[i] in db.orders && db.orders[r.value[i]].userId == session.value
    ensures r.Ok? && IdsInRange(db) ==>
      && session.Some?
      && forall k :: k in db.orders && db.orders[k].userId == session.value ==> k in r.value
    ensures r.Ok? && Chronological(db) ==>
      forall i, j :: 0 <= i < j < |r.value| ==> db.orders[r.value[i]].timestamp > db.orders[r.value[j]].timestamp
  {
    match CurrentUser(db, session)
    case None => Err(LoginRequired)
    case Some(uid) => Ok(Backwards(KeysWhere(db.orders, PlacedBy(uid), 1, db.nextOrderId)))
  }

  // ================================================================ buy now

  /** `product.stock -= quantity` and the new order, committed together. */
  function Purchase(db: Db, uid: int, pid: int, quantity: int): Db
    requires pid in db.products
  {
    var p := db.products[pid];
    InsertOrder(db.(products := db.products[pid := p.(stock := p.stock - quantity)]), uid, pid, quantity)
  }

  /** A purchase takes `quantity` from the product's stock, leaves its other
      columns and every other product alone, and records one order stamped
      with the current tick under the next order id. */
  lemma PurchaseEffect(db: Db, uid: int, pid: int, quantity: int)
    requires pid in db.products
    ensures var r := Purchase(db, uid, pid, quantity);
      && r.products.Keys == db.products.Keys
      && r.products[pid] == db.products[pid].(stock := db.products[pid].stock - quantity)
      && (forall k :: k in db.products && k != pid ==> r.products[k] == db.products[k])
      && db.nextOrderId in r.orders && r.orders[db.nextOrderId] == Order(uid, pid, quantity, db.clock)
      && r.orders.Keys == db.orders.Keys + {db.nextOrderId}
      && (forall k :: k in db.orders && k != db.nextOrderId ==> r.orders[k] == db.orders[k])
      && r.users == db.users && r.carts == db.carts
  {
  }

  /** A purchase by an existing user of an existing product keeps the
      invariant, and keeps stock non-negative when it takes no more than there is. */
  lemma PurchaseKeepsValid(db: Db, uid: int, pid: int, quantity: int)
    requires pid in db.products
    requires Valid(db) ==> uid in db.users
    ensures Valid(db) ==> Valid(Purchase(db, uid, pid, quantity))
    ensures StockNonNegative(db) && quantity <= db.products[pid].stock ==> StockNonNegative(Purchase(db, uid, pid, quantity))
  {
    var r := Purchase(db, uid, pid, quantity);
    if Valid(db) {
      assert IdsInRange(r);
      assert RefIntegrity(r);
      assert Chronological(r) by {
        forall a, b | a in r.orders && b in r.orders && a < b
          ensures r.orders[a].timestamp < r.orders[b].timestamp
        {
          if b == db.nextOrderId {
            assert a in db.orders;
          }
        }
      }
    }
  }

  /** `buy_now` (the POST branch). Only the role is checked, not approval;
      the cart is left as it is. */
  function BuyNowStep(db: Db, session: Option<int>, productId: int, quantity: int): (s: Step)
    ensures s.outcome.Err? ==> s.db == db
    ensures Valid(db) ==> Valid(s.db)
    ensures StockNonNegative(db) ==> StockNonNegative(s.db)
  {
    match CurrentUser(db, session)
    case None => Step(db, Err(LoginRequired))
    case Some(uid) =>
      if db.users[uid].role != RoleUser then Step(db, Err(AccessDenied))
      else if productId !in db.products || db.products[productId].stock < 1 then Step(db, Err(Unavailable))
      else if quantity < 1 || quantity > db.products[productId].stock then Step(db, Err(InvalidQuantity))
      else
        PurchaseKeepsValid(db, uid, productId, quantity);
        Step(Purchase(db, uid, productId, quantity), Ok(()))
  }

  /** A purchase goes through exactly when a logged-in customer asks for
      between 1 and the whole stock of an existing product; it lowers that
      stock by exactly `quantity`, never below zero, and appends exactly one
      order for (actor, product, quantity). */
  lemma BuyNowEffect(db: Db, session: Option<int>, productId: int, quantity: int)
    requires Valid(db)
    ensures var s := BuyNowStep(db, session, productId, quantity);
      && (s.outcome == Err(AccessDenied) <==>
            CurrentUser(db, session).Some? && db.users[session.value].role != RoleUser)
      && (s.outcome.Ok? <==>
            && CurrentUser(db, session).Some? && db.users[session.value].role == RoleUser
            && productId in db.products && 1 <= quantity <= db.products[productId].stock)
      && (s.outcome.Ok? ==>
            && session.Some? && productId in db.products
            && s.db.products == db.products[productId := db.products[productId].(stock := db.products[productId].stock - quantity)]
            && s.db.products[productId].stock >= 0
            && db.nextOrderId !in db.orders
            && s.db.orders == db.orders[db.nextOrderId := Order(session.value, productId, quantity, db.clock)]
            && s.db.users == db.users && s.db.carts == db.carts)
  {
    var s := BuyNowStep(db, session, productId, quantity);
    if s.outcome.Ok? {
      assert db.nextOrderId !in db.orders;
    }
  }

  method BuyNow(store: Store, session: Option<int>, productId: int, quantity: int) returns (r: Result<()>)
    modifies store
    ensures store.Tables() == BuyNowStep(old(store.Tables()), session, productId, quantity).db
    ensures r == BuyNowStep(old(store.Tables()), session, productId, quantity).outcome
  {
    var actor := CurrentUser(store.Tables(), session);
    if actor.None? {
      return Err(LoginRequired);
    }
    var uid := actor.value;
    if store.users[uid].role != RoleUser {
      return Err(AccessDenied);
    }
    if productId !in store.products || store.products[productId].stock < 1 {
      return Err(Unavailable);
    }
    var product := store.products[productId];
    if quantity < 1 || quantity > product.stock {
      return Err(InvalidQuantity);
    }
    store.products := store.products[productId := product.(stock := product.stock - quantity)];
    var _ := store.AddOrder(uid, productId, quantity);
    return Ok(());
  }

  // ================================================================ fix orders

  /** `fix_orders`: an administrator deletes the orders whose user is NULL.
      `Order.userId` is a non-null integer, so no order matches and the count
      is zero; nothing changes for anybody. */
  function FixOrders(db: Db, session: Option<int>): (r: Result<nat>)
    ensures r.Ok? <==> CurrentUser(db, session).Some? && db.users[session.value].role == RoleAdmin
    ensures r.Ok? ==> r.value == 0
  {
    match CurrentUser(db, session)
    case None => Err(LoginRequired)
    case Some(uid) => if db.users[uid].role == RoleAdmin then Ok(0) else Err(AccessDenied)
  }

  // ================================================================ consequences

  /** The login outcome for the user `id` who holds `username`, when the
      password verifies: pending unless approved or an administrator. */
  lemma LoginOfNamed(db: Db, id: int, username: string, password: string, check: (string, string) -> bool)
    requires IdsInRange(db) && UniqueUsernames(db.users)
    requires id in db.users && db.users[id].username == username && check(db.users[id].password, password)
    ensures Login(db, username, password, check) ==
      if db.users[id].approved || db.users[id].role == RoleAdmin
      then Ok(Session(id, LandingFor(db.users[id].role)))
      else Err(PendingApproval)
  {
    assert NameTaken(db.users, username);
  }

  /** The registration form accepts any role and the approval check exempts
      administrators, so whoever registers as "admin" can log in at once. */
  lemma SelfRegisteredAdminLogsIn(db: Db, username: string, digest: string, password: string, check: (string, string) -> bool)
    requires Valid(db) && !NameTaken(db.users, username) && check(digest, password)
    ensures Login(RegisterStep(db, username, digest, Some(RoleAdmin)).db, username, password, check)
         == Ok(Session(db.nextUserId, AdminDashboard))
  {
    var after := RegisterStep(db, username, digest, Some(RoleAdmin)).db;
    RegisterEffect(db, username, digest, Some(RoleAdmin));
    LoginOfNamed(after, db.nextUserId, username, password, check);
  }

  /** A customer who has just registered is told their account is pending. */
  lemma NewCustomerIsPending(db: Db, username: string, digest: string, password: string, check: (string, string) -> bool)
    requires Valid(db) && !NameTaken(db.users, username) && check(digest, password)
    ensures Login(RegisterStep(db, username, digest, None).db, username, password, check) == Err(PendingApproval)
  {
    var after := RegisterStep(db, username, digest, None).db;
    RegisterEffect(db, username, digest, None);
    LoginOfNamed(after, db.nextUserId, username, password, check);
  }
}
