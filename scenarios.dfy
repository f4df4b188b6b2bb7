/** Properties of sequences of requests that span the blueprints. Requests
    here run one after another; they are not interleaved. */
module Scenarios {
  import opened Base
  import opened Models
  import opened App
  import U = UserRoutes
  import M = MerchantRoutes
  import A = AdminRoutes

  // ================================================================ approval

  /** A customer who registers cannot log in until an administrator approves
      the account; afterwards the same credentials succeed. */
  lemma ApprovalUnlocksCustomerLogin(db: Db, admin: Option<int>, username: string, digest: string,
                                     password: string, check: (string, string) -> bool)
    requires Valid(db) && A.AdminGate(db, admin).Ok?
    requires !NameTaken(db.users, username) && check(digest, password)
    ensures var registered := U.RegisterStep(db, username, digest, None);
      && registered.outcome.Ok?
      && U.Login(registered.db, username, password, check) == Err(PendingApproval)
      && U.Login(A.ApproveUserStep(registered.db, admin, db.nextUserId).db, username, password, check)
         == Ok(Session(db.nextUserId, UserHome))
  {
    var id := db.nextUserId;
    var registered := U.RegisterStep(db, username, digest, None);
    U.RegisterEffect(db, username, digest, None);
    U.NewCustomerIsPending(db, username, digest, password, check);
    ApprovalByAdmin(registered.db, admin, id);
    var approved := A.ApproveUserStep(registered.db, admin, id).db;
    ApprovedUserLogsIn(approved, id, username, password, check);
  }

  /** The same holds for a merchant at the merchant login. */
  lemma ApprovalUnlocksMerchantLogin(db: Db, admin: Option<int>, username: string, digest: string,
                                     password: string, check: (string, string) -> bool)
    requires Valid(db) && A.AdminGate(db, admin).Ok?
    requires !NameTaken(db.users, username) && check(digest, password)
    ensures var registered := M.RegisterStep(db, username, digest);
      && registered.outcome.Ok?
      && M.Login(registered.db, username, password, check) == Err(PendingApproval)
      && M.Login(A.ApproveUserStep(registered.db, admin, db.nextUserId).db, username, password, check)
         == Ok(Session(db.nextUserId, MerchantDashboard))
  {
    var id := db.nextUserId;
    var registered := M.RegisterStep(db, username, digest);
    M.RegisterEffect(db, username, digest);
    UnapprovedMerchantIsPending(registered.db, id, username, password, check);
    ApprovalByAdmin(registered.db, admin, id);
    var approved := A.ApproveUserStep(registered.db, admin, id).db;
    ApprovedMerchantLogsIn(approved, id, username, password, check);
  }

  /** An administrator's approval of user `id` keeps the invariant and marks
      exactly that row approved. */
  lemma ApprovalByAdmin(db: Db, admin: Option<int>, id: int)
    requires Valid(db) && id in db.users && admin.Some? && admin.value in db.users
    requires db.users[admin.value].role == RoleAdmin
    ensures var s := A.ApproveUserStep(db, admin, id);
      Valid(s.db) && s.db.users == db.users[id := db.users[id].(approved := true)]
  {
  }

  /** The customer login admits an approved user whose password verifies. */
  lemma ApprovedUserLogsIn(db: Db, id: int, username: string, password: string, check: (string, string) -> bool)
    requires IdsInRange(db) && UniqueUsernames(db.users)
    requires id in db.users && db.users[id].username == username && db.users[id].approved
    requires check(db.users[id].password, password)
    ensures U.Login(db, username, password, check) == Ok(Session(id, U.LandingFor(db.users[id].role)))
  {
    assert NameTaken(db.users, username);
  }

  /** The merchant login admits an approved merchant whose password verifies. */
  lemma ApprovedMerchantLogsIn(db: Db, id: int, username: string, password: string, check: (string, string) -> bool)
    requires IdsInRange(db) && UniqueUsernames(db.users)
    requires id in db.users && db.users[id].username == username && db.users[id].approved
    requires db.users[id].role == RoleMerchant && check(db.users[id].password, password)
    ensures M.Login(db, username, password, check) == Ok(Session(id, MerchantDashboard))
  {
    assert M.IsMerchantNamed(username)(db.users[id]);
  }

  /** The merchant login tells an unapproved merchant their account is pending. */
  lemma UnapprovedMerchantIsPending(db: Db, id: int, username: string, password: string, check: (string, string) -> bool)
    requires IdsInRange(db) && UniqueUsernames(db.users)
    requires id in db.users && db.users[id].username == username && !db.users[id].approved
    requires db.users[id].role == RoleMerchant && check(db.users[id].password, password)
    ensures M.Login(db, username, password, check) == Err(PendingApproval)
  {
    assert M.IsMerchantNamed(username)(db.users[id]);
  }

  // ================================================================ stock

  /** A second purchase asking for more than the first one left is refused
      and changes nothing. */
  lemma NoOversellAfterPurchase(db: Db, session: Option<int>, productId: int, first: int, second: int)
    requires Valid(db)
    requires CurrentUser(db, session).Some? && db.users[session.value].role == RoleUser
    requires productId in db.products && 1 <= first <= db.products[productId].stock
    requires second > db.products[productId].stock - first
    ensures var s1 := U.BuyNowStep(db, session, productId, first);
      && s1.outcome.Ok?
      && s1.db.products[productId].stock == db.products[productId].stock - first
      && var s2 := U.BuyNowStep(s1.db, session, productId, second);
         s2.outcome.Err? && s2.db == s1.db
  {
    var s1 := U.BuyNowStep(db, session, productId, first);
    U.BuyNowEffect(db, session, productId, first);
    U.BuyNowEffect(s1.db, session, productId, second);
  }

  /** With five in stock, an order for three leaves two and one order row for
      (customer, product, 3); a second order for three is refused as an
      invalid quantity. */
  lemma WidgetScenario(db: Db, session: Option<int>, productId: int)
    requires Valid(db)
    requires CurrentUser(db, session).Some? && db.users[session.value].role == RoleUser
    requires productId in db.products && db.products[productId].stock == 5
    ensures var s1 := U.BuyNowStep(db, session, productId, 3);
      && s1.outcome.Ok?
      && s1.db.products[productId].stock == 2
      && s1.db.orders == db.orders[db.nextOrderId := Order(session.value, productId, 3, db.clock)]
      && U.BuyNowStep(s1.db, session, productId, 3) == Step(s1.db, Err(InvalidQuantity))
  {
    U.BuyNowEffect(db, session, productId, 3);
  }

  /** `n` customers' purchases of one item each, one after another: the
      final database and the number that went through. */
  function BuyOneEach(db: Db, sessions: seq<Option<int>>, productId: int): (Db, nat)
    decreases |sessions|
  {
    if sessions == [] then (db, 0)
    else
      var s := U.BuyNowStep(db, sessions[0], productId, 1);
      var rest := BuyOneEach(s.db, sessions[1..], productId);
      (rest.0, rest.1 + if s.outcome.Ok? then 1 else 0)
  }

  function Min(a: int, b: int): int {
    if a <= b then a else b
  }

  predicate AllCustomers(db: Db, sessions: seq<Option<int>>) {
    forall i :: 0 <= i < |sessions| ==>
      sessions[i].Some? && sessions[i].value in db.users && db.users[sessions[i].value].role == RoleUser
  }

  /** Of `n` single-item purchases against a stock of `k`, exactly `min(n, k)`
      go through and the stock ends at `k - min(n, k)`, never below zero. */
  lemma {:induction false} SequentialPurchasesNeverOversell(db: Db, sessions: seq<Option<int>>, productId: int)
    requires Valid(db) && AllCustomers(db, sessions)
    requires productId in db.products && db.products[productId].stock >= 0
    ensures var (after, sold) := BuyOneEach(db, sessions, productId);
      && sold == Min(|sessions|, db.products[productId].stock)
      && productId in after.products
      && after.products[productId].stock == db.products[productId].stock - sold
      && after.users == db.users
    decreases |sessions|
  {
    if sessions != [] {
      var s := U.BuyNowStep(db, sessions[0], productId, 1);
      SinglePurchase(db, sessions[0], productId);
      CustomersStayCustomers(db, s.db, sessions);
      SequentialPurchasesNeverOversell(s.db, sessions[1..], productId);
    }
  }

  /** One single-item purchase by a customer: it goes through exactly when
      an item is left, takes one from the stock, and keeps the invariant and
      the users. */
  lemma SinglePurchase(db: Db, session: Option<int>, productId: int)
    requires Valid(db) && session.Some? && session.value in db.users
    requires db.users[session.value].role == RoleUser
    requires productId in db.products && db.products[productId].stock >= 0
    ensures var s := U.BuyNowStep(db, session, productId, 1);
      && Valid(s.db) && s.db.users == db.users && productId in s.db.products
      && (s.outcome.Ok? <==> db.products[productId].stock >= 1)
      && s.db.products[productId].stock == db.products[productId].stock - (if s.outcome.Ok? then 1 else 0)
  {
    U.BuyNowEffect(db, session, productId, 1);
  }

  /** The remaining sessions still name customers once the users are unchanged. */
  lemma CustomersStayCustomers(db: Db, db': Db, sessions: seq<Option<int>>)
    requires sessions != [] && AllCustomers(db, sessions) && db'.users == db.users
    ensures AllCustomers(db', sessions[1..])
  {
    forall i | 0 <= i < |sessions[1..]|
      ensures sessions[1..][i].Some? && sessions[1..][i].value in db'.users
      ensures db'.users[sessions[1..][i].value].role == RoleUser
    {
      assert sessions[1..][i] == sessions[i + 1];
    }
  }

  // ================================================================ cart

  /** Each addition is weighed against the stock on its own, so two
      additions can put more in the cart than there is in stock. */
  lemma CartCanExceedStock(db: Db, session: Option<int>, productId: int, quantity: int)
    requires Valid(db) && CurrentUser(db, session).Some?
    requires productId in db.products && 0 < quantity <= db.products[productId].stock < 2 * quantity
    requires forall c :: !U.EntryOfPair(db, c, session.value, productId)
    ensures var s1 := U.AddToCartStep(db, session, productId, quantity);
      var s2 := U.AddToCartStep(s1.db, session, productId, quantity);
      && s1.outcome.Ok? && s2.outcome.Ok?
      && db.nextCartId in s2.db.carts
      && s2.db.carts[db.nextCartId] == CartEntry(session.value, productId, 2 * quantity)
      && s2.db.carts[db.nextCartId].quantity > s2.db.products[productId].stock
  {
    var s1 := U.AddToCartStep(db, session, productId, quantity);
    FirstAddition(db, session, productId, quantity);
    assert s1.db.carts[db.nextCartId] == CartEntry(session.value, productId, quantity);
    SecondAddition(s1.db, session, db.nextCartId, productId, quantity);
  }

  /** The first addition of a product a customer has no entry for creates one
      under the next cart id. */
  lemma FirstAddition(db: Db, session: Option<int>, productId: int, quantity: int)
    requires Valid(db) && CurrentUser(db, session).Some?
    requires productId in db.products && quantity <= db.products[productId].stock
    requires forall c :: !U.EntryOfPair(db, c, session.value, productId)
    ensures var s := U.AddToCartStep(db, session, productId, quantity);
      && s.outcome.Ok? && Valid(s.db) && s.db.products == db.products && s.db.users == db.users
      && s.db.carts == db.carts[db.nextCartId := CartEntry(session.value, productId, quantity)]
  {
    U.AddToCartEffect(db, session, productId, quantity);
  }

  /** A further addition of the same product grows the customer's entry. */
  lemma SecondAddition(db: Db, session: Option<int>, cid: int, productId: int, quantity: int)
    requires Valid(db) && CurrentUser(db, session).Some?
    requires productId in db.products && quantity <= db.products[productId].stock
    requires cid in db.carts && db.carts[cid].userId == session.value && db.carts[cid].productId == productId
    ensures var s := U.AddToCartStep(db, session, productId, quantity);
      && s.outcome.Ok? && s.db.products == db.products && cid in s.db.carts
      && s.db.carts[cid] == db.carts[cid].(quantity := db.carts[cid].quantity + quantity)
  {
    assert U.EntryOfPair(db, cid, session.value, productId);
    U.AddToCartEffect(db, session, productId, quantity);
  }
}
