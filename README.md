# A verified model of a small Flask shop

The shop has three kinds of account, each with its own set of pages:
- customers (role `user`) register, log in, fill a cart and buy products;
- merchants (role `merchant`) register, log in, manage their own products, see their product sales and moderate other accounts;
- administrators (role `admin`) log in, list everything and approve or delete accounts.

A bootstrap route creates the administrator `admin123`. All state lives in four tables: `User`, `Product`, `Cart` and `Order`. The foreign keys between them cascade on delete.

The model makes each route a transition of the database:
- The database is a value, `Models.Db`. It holds each table as a map from primary key to row, the next id of each table, and a clock that stamps orders.
- Each route is a pure step function (`UserRoutes.AddToCartStep`, ...). It takes the database and the session and returns the new database and an outcome, `Ok` or `Err(kind)`.
- Beside each step function `XStep` is a handler method `X` (for the cart page, `CartPage` and `ViewCart`). It performs the route on a `Storage.Store` object, whose fields the route updates in place. The handler's contract says the store ends in the state the step function computes and returns its outcome.
- The lemmas about the step functions state what each route promises: who may call it, what changes and what does not, and that the invariant `Models.Valid` is kept. `Models.Valid` covers unique usernames, existing foreign keys, at most one cart entry per (user, product) and chronological order ids.

Modules:
- `Base`: outcome, error and session types.
- `Query`: `filter_by(...).first()` and `.all()` over a table.
- `Models`: tables, invariant, inserts and cascading deletes.
- `Storage`: the mutable store.
- `App`: `load_user`, `login_required` and `create_admin`.
- `UserRoutes`, `MerchantRoutes` and `AdminRoutes`: the three blueprints.
- `Scenarios`: properties of request sequences that span blueprints.

The model follows the code where the code is lax:
- The customer registration form may set any role.
- Administrators skip the approval check at login.
- Merchants may approve and delete customer and merchant accounts. Both routes then redirect to `merchant.manage_users`, which no route defines, so each such request ends in a server error after its change is committed.
- Restocking, editing and deleting a product check ownership but not role.
- Adding to the cart checks neither the sign of the quantity nor the amount already in the cart.
- Prices and stock levels are stored as entered.

## Model

| member | source | states |
|---|---|---|
| Query.FirstKey | routes/user_routes.py:24 | `filter_by(...).first()`: the result is the smallest id in the table's id range whose row matches; `None` exactly when no row matches |
| Query.KeysWhere | routes/user_routes.py:110 | `filter_by(...).all()`: exactly the ids of matching rows, each once, in ascending id order |
| Query.Backwards | routes/user_routes.py:140 | the same ids in reverse order, with the same length and the same members |
| Models.NewUser | models.py:10 | a user created without an explicit `approved` value is unapproved; the other columns are as given |
| Models.InsertUserAddsOneRow | routes/user_routes.py:35 | a new user row gets the next user id and the counter advances; every other row and every other table stay |
| Models.InsertProductAddsOneRow | routes/merchant_routes.py:90 | a new product row gets the next product id and the counter advances; every other row and every other table stay |
| Models.InsertCartAddsOneRow | routes/user_routes.py:100 | a new cart row gets the next cart id and the counter advances; every other row and every other table stay |
| Models.InsertOrderAddsOneRow | routes/user_routes.py:167-168 | a new order row gets the next order id and the current tick, and the counter and the clock advance; every other row and every other table stay |
| Models.UniqueUsernames | models.py:7 | no two users share a username (the `unique=True` column) |
| Models.RefIntegrity | models.py:22-26 | every product's merchant, every cart entry's user and product, and every order's user and product exist (the non-null foreign keys of models.py:22-56) |
| Models.OneEntryPerPair | routes/user_routes.py:95-100 | at most one cart entry per (user, product) pair, which `add_to_cart` maintains by merging into an existing entry |
| Models.Valid | models.py:5-58 | the invariant every route keeps: ids below their counters, unique usernames, existing foreign keys, one cart entry per pair, and order timestamps increasing with the id and below the clock |
| Models.EmptyIsValid | models.py:5-56 | the empty database meets the integrity invariant and has no negative stock |
| Models.UserNamed | routes/user_routes.py:50 | a username lookup finds a user exactly when a user of that name exists, and the row it finds has that name |
| Models.DeleteCart | routes/user_routes.py:129 | deleting a cart row removes exactly that row, leaves every other table and counter as it was, and keeps the invariant |
| Models.DeleteProduct | models.py:28-29 | deleting a product removes it and exactly the cart entries and orders that reference it; every other row is unchanged; the invariant is kept |
| Models.DeleteUser | models.py:13-15 | deleting a user removes them, their orders, their cart entries, their products, and the cart entries and orders of those products; every other row is unchanged; the invariant, including referential integrity, is kept |
| Models.DeleteOrdersOf | routes/admin_routes.py:95 | the bulk delete removes exactly the user's orders and changes no other table |
| Models.DeleteCartsOf | routes/admin_routes.py:98 | the bulk delete removes exactly the user's cart entries and changes no other table |
| Models.BulkDeletesSubsumed | routes/admin_routes.py:95-100 | deleting a user's orders and cart entries before the user gives the same database as the cascade alone |
| Models.DeleteUserLeavesNoReference | models.py:13-15 | after a user is deleted, no product, cart entry or order refers to them |
| Storage.Store.constructor | models.py:5-58 | a new store holds four empty tables |
| Storage.Store.AddUser | models.py:5-10 | inserting a user stores it under the next user id, which is returned; nothing else changes |
| Storage.Store.AddProduct | models.py:17-26 | inserting a product stores it under the next product id, which is returned |
| Storage.Store.AddCart | models.py:31-43 | inserting a cart entry stores it under the next cart id, which is returned |
| Storage.Store.AddOrder | models.py:45-58 | inserting an order stamps it with the current clock tick and stores it under the next order id |
| Storage.Store.RemoveCart | routes/user_routes.py:129 | the store becomes the database with that cart row deleted |
| Storage.Store.RemoveProduct | models.py:28-29 | the store becomes the database after the product's cascading delete |
| Storage.Store.RemoveUser | models.py:13-15 | the store becomes the database after the user's cascading delete |
| Storage.Store.RemoveOrdersOf | routes/admin_routes.py:95 | the store loses exactly the user's orders |
| Storage.Store.RemoveCartsOf | routes/admin_routes.py:98 | the store loses exactly the user's cart entries |
| App.LoadUser | __init__.py:22-24 | the session's id yields a user exactly when that row exists, and it is that row |
| App.CurrentUser | __init__.py:22-24 | a request is authenticated exactly when its session names an existing user, and the actor is that user |
| App.CreateAdminStep | __init__.py:42-53 | when `admin123` exists, nothing changes; the invariant is kept |
| App.CreateAdminEffect | __init__.py:42-53 | the route refuses exactly when `admin123` exists, and then leaves the database unchanged; otherwise it adds exactly one user (`admin123`, role admin, approved) under a fresh id; no existing row changes |
| App.CreateAdminIdempotent | __init__.py:42-53 | a second call changes nothing, and afterwards exactly one user is named `admin123` |
| App.CreateAdmin | __init__.py:36-54 | the handler leaves the store as the step function says and reports its outcome |
| UserRoutes.RegisterStep | routes/user_routes.py:24-36 | a refused registration changes nothing; the invariant is kept |
| UserRoutes.RegisterEffect | routes/user_routes.py:21-36 | registration is refused exactly when the username is taken; otherwise exactly one unapproved user is added, with the form's role or `user` when none was sent |
| UserRoutes.FormRole | routes/user_routes.py:21 | the role the form sends, or `user` when it sends none |
| UserRoutes.Register | routes/user_routes.py:18-39 | the handler leaves the store as the step function says and reports its outcome |
| UserRoutes.Login | routes/user_routes.py:50-67 | a successful login is for the user of that name whose password verifies, and lands on the page of their role |
| UserRoutes.LandingFor | routes/user_routes.py:61-67 | customers land on the home page, merchants on the merchant dashboard, administrators on the admin dashboard, each exactly for that role |
| UserRoutes.LoginOfNamed | routes/user_routes.py:50-58 | for the user holding the name whose password verifies, the login is pending unless they are approved or an administrator, and otherwise lands on their role's page |
| UserRoutes.LoginSucceedsIff | routes/user_routes.py:50-58 | login succeeds exactly when the password verifies and the user is approved or an administrator; it reports pending approval exactly when the password verifies for an unapproved non-administrator |
| UserRoutes.EntryFor | routes/user_routes.py:95 | the lookup finds the actor's entry for the product exactly when one exists |
| UserRoutes.AddToCartStep | routes/user_routes.py:91-102 | a refused addition changes nothing; products, and so stock, never change; the invariant, including one entry per (user, product), is kept |
| UserRoutes.AddToCartEffect | routes/user_routes.py:91-100 | the addition is refused exactly for an anonymous request or when the product is missing or has less stock than `quantity`, and succeeds in every other case; then an existing entry grows by `quantity` or exactly one new entry is added; users and orders are unchanged |
| UserRoutes.MergeGrowsOneEntry | routes/user_routes.py:97 | merging grows exactly that entry by the quantity; every other entry and every other table stay |
| UserRoutes.AddToCart | routes/user_routes.py:87-104 | the handler leaves the store as the step function says and reports its outcome |
| UserRoutes.MergeRaisesTotal | routes/user_routes.py:96-97 | merging into an existing entry raises the owner's cart total by price times `quantity` |
| UserRoutes.InsertRaisesTotal | routes/user_routes.py:98-100 | a new entry raises its owner's cart total by price times `quantity` |
| UserRoutes.AddToCartRaisesTotal | routes/user_routes.py:95-100 | a successful addition raises the cart total shown by `view_cart` by exactly price times `quantity` |
| UserRoutes.LinesAddUpToTotal | routes/user_routes.py:114-119 | the total shown equals the sum of the subtotals of the lines shown, and each line's subtotal is its product's price times its quantity |
| UserRoutes.CartIds | routes/user_routes.py:110 | the ids of the actor's cart entries, in ascending id order |
| UserRoutes.Subtotal | routes/user_routes.py:114-117 | an entry contributes price times quantity while its product exists, and nothing once it is gone |
| UserRoutes.Total | routes/user_routes.py:113-119 | the running total: the sum of the subtotals of the given entries |
| UserRoutes.CartTotal | routes/user_routes.py:111-119 | the total `view_cart` shows: the sum of the subtotals of the actor's entries |
| UserRoutes.ViewCart | routes/user_routes.py:110-121 | the loop yields one line per entry of the actor whose product still exists, in query order, and the total over those lines |
| UserRoutes.CartPage | routes/user_routes.py:108-121 | the cart page is refused, with a login redirect, exactly for an anonymous request |
| UserRoutes.CartPageAddsUp | routes/user_routes.py:113-121 | each line the cart page shows costs price times quantity, and the page's total is the sum of its lines |
| UserRoutes.RemoveFromCartStep | routes/user_routes.py:127-130 | removal touches only the cart table and keeps the invariant |
| UserRoutes.RemoveFromCartEffect | routes/user_routes.py:127-130 | removal fails only for an anonymous request; afterwards the actor has no entry for the product, and every other entry is still there, unchanged |
| UserRoutes.RemoveFromCartIdempotent | routes/user_routes.py:127-130 | removing the same entry twice is the same as removing it once |
| UserRoutes.RemoveFromCart | routes/user_routes.py:126-132 | the handler leaves the store as the step function says and reports its outcome |
| UserRoutes.ViewOrders | routes/user_routes.py:140 | order history lists only the actor's orders; in a consistent database it lists all of them, newest first (strictly decreasing timestamps) |
| UserRoutes.BuyNowStep | routes/user_routes.py:148-169 | a refused purchase changes nothing; a purchase keeps the invariant and never makes stock negative |
| UserRoutes.PurchaseEffect | routes/user_routes.py:166-168 | a purchase takes the quantity from that product's stock only and records one order stamped with the current tick under the next order id; users and carts stay |
| UserRoutes.BuyNowEffect | routes/user_routes.py:148-169 | a purchase is denied exactly when the actor's role is not `user`; it goes through exactly when the product exists and 1 <= `quantity` <= stock; it lowers that stock by exactly `quantity`, appends exactly one order (actor, product, quantity), and leaves users and carts unchanged |
| UserRoutes.BuyNow | routes/user_routes.py:146-172 | the handler leaves the store as the step function says and reports its outcome |
| UserRoutes.FixOrders | routes/user_routes.py:182-185 | only an administrator gets a result, and it is always zero |
| UserRoutes.SelfRegisteredAdminLogsIn | routes/user_routes.py:21-58 | whoever registers with the role `admin` can log in at once as an administrator |
| UserRoutes.NewCustomerIsPending | routes/user_routes.py:31-56 | a customer who has just registered is told their account is pending |
| MerchantRoutes.RegisterStep | routes/merchant_routes.py:15-27 | a refused registration changes nothing; the invariant is kept |
| MerchantRoutes.RegisterEffect | routes/merchant_routes.py:15-25 | registration is refused exactly when the username is taken; otherwise exactly one unapproved merchant is added |
| MerchantRoutes.Register | routes/merchant_routes.py:11-29 | the handler leaves the store as the step function says and reports its outcome |
| MerchantRoutes.Login | routes/merchant_routes.py:39-45 | a successful login is for a merchant of that name whose password verifies, and lands on the merchant dashboard |
| MerchantRoutes.LoginSucceedsIff | routes/merchant_routes.py:39-47 | merchant login succeeds exactly for an approved merchant whose password verifies, and reports pending approval exactly for an unapproved one |
| MerchantRoutes.AddProductStep | routes/merchant_routes.py:77-91 | a refused addition changes nothing; the invariant is kept; stock stays non-negative when the stock entered is |
| MerchantRoutes.AddProductEffect | routes/merchant_routes.py:77-89 | only a logged-in merchant can add a product; it gets a fresh id, the fields as entered and the actor as merchant; nothing else changes |
| MerchantRoutes.AddProductAcceptsNegativeStock | routes/merchant_routes.py:82-89 | a negative stock is accepted and stored |
| MerchantRoutes.AddProduct | routes/merchant_routes.py:76-93 | the handler leaves the store as the step function says and reports its outcome |
| MerchantRoutes.RestockStep | routes/merchant_routes.py:101-113 | a refused restock changes nothing; restocking keeps the invariant and never makes stock negative |
| MerchantRoutes.RestockEffect | routes/merchant_routes.py:101-112 | restocking succeeds exactly for the product's owner with a positive quantity; another merchant's product is refused as not theirs; stock rises by exactly `quantity`; no other product or table changes |
| MerchantRoutes.Restock | routes/merchant_routes.py:98-115 | the handler leaves the store as the step function says and reports its outcome |
| MerchantRoutes.DeleteProductStep | routes/merchant_routes.py:122-129 | a refused deletion changes nothing; the invariant is kept |
| MerchantRoutes.DeleteProductEffect | routes/merchant_routes.py:122-128 | deletion succeeds exactly for the product's owner; it is the declared cascade, after which no cart entry or order names the product |
| MerchantRoutes.DeleteProduct | routes/merchant_routes.py:121-131 | the handler leaves the store as the step function says and reports its outcome |
| MerchantRoutes.UpdateProductStep | routes/merchant_routes.py:176-186 | a refused update changes nothing; the invariant is kept |
| MerchantRoutes.UpdateProductEffect | routes/merchant_routes.py:176-184 | an update succeeds exactly for the product's owner; it sets exactly name, price and stock and keeps the merchant; nothing else changes |
| MerchantRoutes.UpdateProduct | routes/merchant_routes.py:175-188 | the handler leaves the store as the step function says and reports its outcome |
| MerchantRoutes.SalesOf | routes/merchant_routes.py:140 | the ids of the orders whose product belongs to the merchant, in ascending id order |
| MerchantRoutes.RowOf | routes/merchant_routes.py:142-147 | the row for one order: product name, quantity, buyer name and timestamp; none when the order, its product or its buyer is missing |
| MerchantRoutes.Rows | routes/merchant_routes.py:142-147 | the rows are built exactly when every order's buyer and product exist, one row per order in order |
| MerchantRoutes.ViewOrders | routes/merchant_routes.py:136-147 | anonymous requests must log in and non-merchants are refused; for a merchant the page is shown exactly when every sale's row can be built, one row per sale of the merchant's products in query order, and the only other outcome is a server error |
| MerchantRoutes.ViewOrdersExact | routes/merchant_routes.py:137-147 | only merchants see the page; they see exactly the orders of their own products, one row each in id order, and in a consistent database building the rows never fails |
| MerchantRoutes.ApproveUserStep | routes/merchant_routes.py:194-203 | a request stopped at the login or role gate changes nothing; no request completes normally; the invariant is kept |
| MerchantRoutes.ApproveUserEffect | routes/merchant_routes.py:194-203 | anonymous requests must log in and non-merchants are refused; a merchant's request approves the target only when it is a customer or merchant account, changes no other user and in particular no administrator, and then ends in a server error because the redirect names no route |
| MerchantRoutes.ApproveUser | routes/merchant_routes.py:193-203 | the handler leaves the store as the step function says, the approval committed before the failing redirect, and reports its outcome |
| MerchantRoutes.DeleteUserStep | routes/merchant_routes.py:210-219 | a request stopped at the login or role gate changes nothing; no request completes normally; the invariant is kept |
| MerchantRoutes.DeleteUserEffect | routes/merchant_routes.py:210-219 | anonymous requests must log in and non-merchants are refused; a merchant's request deletes the target, by the declared cascade, only when it is a customer or merchant account, leaves every administrator unchanged, and then ends in a server error because the redirect names no route |
| MerchantRoutes.DeleteUser | routes/merchant_routes.py:209-219 | the handler leaves the store as the step function says, the deletion committed before the failing redirect, and reports its outcome |
| AdminRoutes.Login | routes/admin_routes.py:15-21 | a successful login is for an administrator of that name whose password verifies; every failure is reported as invalid credentials |
| AdminRoutes.LoginSucceedsIff | routes/admin_routes.py:15-19 | administrator login succeeds exactly when an administrator of that name exists and the password verifies, whether approved or not |
| AdminRoutes.AdminGate | routes/admin_routes.py:29-31 | a page is allowed exactly for a logged-in administrator, and the actor is that administrator |
| AdminRoutes.Dashboard | routes/admin_routes.py:29-32 | the dashboard opens exactly when the gate allows it |
| AdminRoutes.ViewUsers | routes/admin_routes.py:37-44 | shown exactly to administrators; every id in the first list is a customer and every id in the second a merchant |
| AdminRoutes.ViewUsersPartition | routes/admin_routes.py:38-43 | the page is shown only to administrators; it lists exactly the customers and exactly the merchants; the lists are disjoint and include no administrator |
| AdminRoutes.ViewProducts | routes/admin_routes.py:49-55 | shown exactly to administrators; the listed ids are existing products, in ascending order |
| AdminRoutes.ViewOrders | routes/admin_routes.py:60-66 | shown exactly to administrators; the listed ids are existing orders, in ascending order |
| AdminRoutes.ViewAllIsComplete | routes/admin_routes.py:50-65 | the product and order listings are shown only to administrators, and list every product and every order exactly once, in id order |
| AdminRoutes.ApproveUserStep | routes/admin_routes.py:72-79 | a refused approval changes nothing; the invariant is kept |
| AdminRoutes.ApproveUserEffect | routes/admin_routes.py:76-79 | only administrators may approve; an existing account of any role is approved; a missing id changes nothing; no other user or table changes |
| AdminRoutes.ApproveUserIdempotent | routes/admin_routes.py:76-79 | approving twice is the same as approving once |
| AdminRoutes.ApproveUser | routes/admin_routes.py:71-81 | the handler leaves the store as the step function says and reports its outcome |
| AdminRoutes.DeleteUserStep | routes/admin_routes.py:88-101 | a refused deletion changes nothing; the invariant is kept |
| AdminRoutes.DeleteUserIsCascade | routes/admin_routes.py:92-101 | only administrators may delete; deleting an existing account gives exactly the cascade of deleting the user alone, after which no order or cart entry is theirs; a missing id changes nothing |
| AdminRoutes.DeleteUser | routes/admin_routes.py:87-103 | the handler performs the bulk deletes and then the user delete, ending where the step function says |
| Scenarios.ApprovalUnlocksCustomerLogin | routes/user_routes.py:31-58 | a newly registered customer's login is pending; after an administrator approves them, the same credentials log them in |
| Scenarios.ApprovalUnlocksMerchantLogin | routes/merchant_routes.py:20-45 | a newly registered merchant's login is pending; after an administrator approves them, the same credentials open the merchant dashboard |
| Scenarios.ApprovedUserLogsIn | routes/user_routes.py:46-67 | an approved user whose password verifies is let in at the customer login and sent to the page for their role |
| Scenarios.ApprovedMerchantLogsIn | routes/merchant_routes.py:35-45 | an approved merchant whose password verifies reaches the merchant dashboard |
| Scenarios.UnapprovedMerchantIsPending | routes/merchant_routes.py:35-47 | an unapproved merchant with the right password is told the account is pending |
| Scenarios.NoOversellAfterPurchase | routes/user_routes.py:161-166 | after a purchase, a second purchase for more than the remaining stock is refused and changes nothing |
| Scenarios.WidgetScenario | routes/user_routes.py:161-169 | with five in stock, buying three leaves two and adds one order for three; a second order for three is refused as an invalid quantity |
| Scenarios.SequentialPurchasesNeverOversell | routes/user_routes.py:154-166 | of n one-item purchases made one after another against a stock of k, exactly min(n, k) go through, and the stock ends at k minus that number |
| Scenarios.SinglePurchase | routes/user_routes.py:146-169 | a one-item purchase by a customer goes through exactly when an item is left, takes one from the stock and keeps the tables consistent |
| Scenarios.CartCanExceedStock | routes/user_routes.py:91-97 | two additions that each fit the stock can together put more in the cart than there is in stock |
| Scenarios.FirstAddition | routes/user_routes.py:87-102 | a customer's first addition of a product that fits the stock creates one entry under the next cart id |
| Scenarios.SecondAddition | routes/user_routes.py:87-102 | a further addition of the same product grows the quantity of the customer's existing entry |

## Left out

- Flask plumbing: routing, templates, `flash` and `redirect`. Each branch is modelled by the outcome it reports, not by the page or message it shows.
- The GET branches of the forms, the home page, the merchant dashboard, `add_product_form`, `edit_product_form`, every logout route, and the HTML templates. They only render data and change nothing.
- Form parsing: `int(...)` and `float(...)` on the form fields arrive as already-parsed parameters. A field they would reject, which ends a real request with a server error, is not modelled. A `restock` quantity that is not a string of digits is modelled as a quantity of 0.
- Password hashing: the digest stored at registration is a parameter, and verification is a `check` function parameter. The model states nothing about the hash itself.
- Sessions: `login_user` and `logout_user` are not modelled. The session is the id it carries, or none. A successful login returns that id and the page the user lands on.
- Prices: float prices are modelled as whole numbers of cents, so float rounding in `price * quantity` is not modelled.
- Timestamps: `datetime.utcnow` is modelled as a clock that ticks once per order. Two orders with equal wall-clock times cannot occur in the model.
- Query order: `filter_by(...).first()` and `.all()` without `order_by` promise no order. The model fixes ascending id order, so the order of the cart lines, the merchant's sales rows and the admin listings is one possible order, not the only one.
- Ids: new ids come from counters that only grow. SQLite could reuse the id of a deleted last row.
- Integrity: the `nullable`, `unique` and foreign-key constraints appear as the invariant the routes are proved to keep. The database refusing a write that breaks them is not modelled. String column lengths are not modelled.
- Cascades: deletes follow the relationship annotations. Whether SQLite enforces `ondelete='CASCADE'` at run time is not modelled.
- Concurrency: requests run one at a time and each commit is atomic. Simultaneous purchases that could oversell when commits interleave are not modelled.
- UserRoutes.FixOrders: it deletes orders whose user is NULL, and the schema forbids NULL there. The model has only non-null user ids, so the count is always zero and nothing changes.
- A purchase leaves the cart as it is, as the code does; consuming the cart is not part of the shop.
- The code lets the customer registration form set any role. Merchants, not only administrators, can moderate accounts. `buy_now` checks role but not approval. Restock, edit and delete check ownership but not role. No route validates the signs of prices or stock: `add_product` and `update_product` store any stock; neither `buy_now` nor `restock` makes a non-negative stock negative.
