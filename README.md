# Bistro server core in Dafny

A verified model of the logic in the restaurant ordering API (`index.js`,
an Express server over a MongoDB database named `bistroDB`). Most of that
server passes requests straight through to the database. This model keeps
the parts that decide or compute something:

- **Access control.** `verifyToken` reads the `Authorization` header and
  verifies the token in it. `verifyAdmin` looks the caller's email up in
  `users` and requires `role === 'admin'`. The personal routes refuse any
  email in the path that is not the caller's own.
- **Payment settlement** (`POST /payment`). The payment document is
  inserted, then every cart whose id is listed in `cartIds` is deleted.
- **Analytics.** `/admin-stats` totals `price` over `payments`.
  `/order-stats` unwinds each payment's `menuItemIds`, joins them to `menu`
  and groups by category.
- **Users.** `POST /users` creates a user only if the email is new.
  `PATCH /users/admin/:id` sets the user's role to `admin`.

Modules:

- `Wrappers` holds `Option`.
- `Records` holds the documents and the `findOne`-by-email lookup.
- `Gate` holds the middleware as pure decisions. A gate either proceeds
  with the decoded claims or rejects with 401 or 403.
- `Analytics` holds both reports as folds over sequences, together with
  independent reference definitions and the lemmas that connect the two.
  The references are `CategoryQuantity`, `CategoryRevenue` and
  `MatchedCount`, stated per ordered id, and `RowCount` and `RowRevenue`,
  stated per joined row.
- `Routes` holds the protected read-only handlers, each composed with its
  middleware.
- `Store` holds class `Database`. Its fields are the collections as
  sequences, and its methods update them in place: `CreateUser`,
  `ElevateUser`, `HandleElevate` and `Settle`. Module-level functions give
  the new value of each collection.

Abstractions:

- The JWT verifier is the parameter `verify: string -> Option<Claims>`. It
  covers signature and expiry checking and the secret.
- Document ids are abstract naturals. `new ObjectId(s)` and the
  `$convert` to `objectId` are identity on them.
- `findOne` and `updateOne` act on the first matching document in
  collection order.
- Prices are integers.

Behaviours of the code that the model keeps as written:

- `/order-stats` revenue sums the joined menu item's `price`, not the
  payment's own `price` (`Analytics.OrderStatsExample`).
- The scheme word of the `Authorization` header is never checked: any
  word, one space and the token is accepted (`Gate.BearerTokenOf`).
- `role` is stored exactly as posted to `POST /users`, and may be absent.
  A client can therefore register itself with role `admin` and pass the
  admin gate at once (`Store.RegisterAsAdmin`).
- An empty header is rejected like a missing one, because
  `!req.headers.authorization` is also true for `""`. An empty or missing
  token segment is rejected by the JWT library's "jwt must be provided"
  rule before any signature check.
- `POST /payment` has no guard against repeats. An identical payment
  posted twice is stored twice, and `/payment/:email` lists it twice
  (`Routes.PaymentsOf`).

## Model

| member | source | states |
|---|---|---|
| `Gate.Split` | index.js:56 | `split(' ')`: there is always at least one segment and no segment contains a space |
| `Gate.JoinSplit` | index.js:56 | joining the segments with single spaces gives back the header exactly |
| `Gate.SplitJoin` | index.js:56 | splitting a space-join of space-free segments gives back those segments |
| `Gate.BearerToken` | index.js:56 | the second segment is space-free, and there is none exactly when the header has no space |
| `Gate.BearerTokenOf` | index.js:56 | `<scheme> <token>` yields the token for any scheme word, so `Bearer` is never checked |
| `Gate.Authenticate` | index.js:49-64 | a missing or empty header is 401 whatever the verifier says; otherwise the caller is authenticated iff there is a non-empty second segment that the verifier accepts, and the claims passed on are exactly the verifier's |
| `Gate.NoHeaderIgnoresVerifier` | index.js:52-54 | with no header, every verifier gives the same 401, so verification plays no part |
| `Gate.BearerHeaderDecidedByVerifier` | index.js:56-63 | for a well-formed `<scheme> <token>` header, the verifier's answer on that token decides: its claims, or 401 |
| `Records.FindByEmail` | index.js:69 | `findOne({email})` finds nothing iff no user has that email; otherwise it returns the first user with it |
| `Gate.IsAdmin` | index.js:67-70 | a missing user is never admin; when emails are unique, the check holds iff a user with that email has role `admin` |
| `Gate.AdminGate` | index.js:66-75 | proceeds iff the caller is authenticated and the first user with their email is an admin, and then with exactly the verified claims; 401 iff authentication failed; 403 iff authenticated but not an admin |
| `Gate.AdminGateIff` | index.js:66-74 | with unique emails, an authenticated caller passes iff their record exists with role `admin`, and gets 403 iff every record with their email has another role or there is none |
| `Gate.SelfGate` | index.js:102-107 | proceeds iff authenticated with exactly the path's email; 401 iff authentication failed; 403 iff authenticated with a different email |
| `Analytics.SumPrices` | index.js:138 | `$sum: '$price'` is never negative when no price is negative |
| `Analytics.ReducePrices` | index.js:130-131 | the left-fold `reduce` from a start value ends at that value plus the `$sum` of the prices |
| `Analytics.RevenueGroups` | index.js:133-142 | the `$group` with `_id: null` yields no group for no payments and exactly one group otherwise |
| `Analytics.Revenue` | index.js:143 | revenue is exactly 0 when the collection is empty |
| `Analytics.RevenueIsReduce` | index.js:129-143 | the aggregation equals `reduce((acc, p) => acc + p.price, 0)` over every payment |
| `Analytics.RevenueAppend` | index.js:133-143 | revenue is additive over any split of the payments |
| `Analytics.Unwind` | index.js:155-159 | every entry of every payment's `menuItemIds` becomes a row, and every row comes from some payment's `menuItemIds` |
| `Analytics.UnwindAppend` | index.js:155-157 | each payment adds exactly its own `menuItemIds` rows, in order |
| `Analytics.Lookup` | index.js:161-168 | every joined document comes from `menu` and carries the looked-up id |
| `Analytics.LookupUnique` | index.js:161-171 | with unique menu ids, the join yields the one matching menu item, or nothing |
| `Analytics.Join` | index.js:161-171 | every row after `$lookup` and `$unwind` is a menu document |
| `Analytics.JoinDropsUnmatched` | index.js:161-171 | with unique menu ids, the number of joined rows equals the number of ordered ids that match a menu item, so unmatched ids are dropped |
| `Analytics.JoinCounts` | index.js:161-177 | joined rows per category, and their price sum, equal the per-id reference counts |
| `Analytics.AddRow` | index.js:173-177 | folding one row in adds 1 to its category's quantity and its price to that category's revenue, leaves other categories unchanged, and keeps categories distinct and counted |
| `Analytics.GroupByCategory` | index.js:173-186 | the groups are distinct and each has quantity at least 1; a category appears iff some row has it; its quantity is the number of rows in it and its revenue the sum of their prices |
| `Analytics.RowCount` | index.js:175 | a category's row count is positive iff some joined row has that category |
| `Analytics.OrderStats` | index.js:154-187 | the whole pipeline reports each category at most once, never with quantity 0, and only categories of menu items |
| `Analytics.OrderStatsCorrect` | index.js:154-187 | with unique menu ids, each category is reported once, is reported iff an ordered item joins to it, and reports the count and the menu-price sum of those items |
| `Analytics.OrderStatsAfterPayment` | index.js:154-187 | one more payment raises each category's quantity and revenue by that payment's own matched items only |
| `Analytics.OrderStatsExample` | index.js:173-177 | two payments of one item priced 7 in `Salad` report `{Salad, 2, 14}`, whatever the payments' own prices |
| `Store.Retire` | index.js:236-241 | a cart remains iff it was there and its id is not listed; nothing is added |
| `Store.RetireAppend` | index.js:236-241 | deletion acts cart by cart, so the surviving carts keep their order |
| `Store.RetireAbsentIds` | index.js:236-241 | listed ids that match no cart are a no-op, not an error |
| `Store.RetireIdempotent` | index.js:231-241 | settling the same `cartIds` again deletes nothing more |
| `Store.Registered` | index.js:200-208 | after create-if-absent, a user with the body's email always exists |
| `Store.RegisterIdempotent` | index.js:198-209 | posting the same user twice leaves the collection as it was after the first post |
| `Store.RegisterKeepsEmailsUnique` | index.js:200-207 | create-if-absent never adds a second user with an existing email |
| `Store.FindAppended` | index.js:69 | a user appended under an email no one else has is the one `findOne` finds for that email |
| `Store.RegisterAsAdmin` | index.js:200-207 | a new user posted with role `admin` passes the admin role check immediately, whatever the other users' emails are |
| `Store.FindById` | index.js:278 | finds nothing iff no user has the id; otherwise returns a user with that id |
| `Store.Elevated` | index.js:276-284 | elevation keeps the number of users and every user's id, email and name |
| `Store.ElevatedAt` | index.js:278-284 | with unique ids, only the user with the id changes, and only its role, which becomes `admin` |
| `Store.ElevateIdempotent` | index.js:276-284 | elevating twice gives the same users as elevating once |
| `Store.ElevateGrantsAdmin` | index.js:276-284 | with unique ids and emails, after a user's id is elevated, that user's email passes the admin check |
| `Store.Database.constructor` | index.js:32-39 | the store starts with the given collections and unique ids |
| `Store.Database.CreateUser` | index.js:198-209 | an existing email returns `insertedId: null` and changes nothing; otherwise exactly one document is appended under a fresh id, which is returned; email uniqueness is kept and other collections are untouched |
| `Store.Database.ElevateUser` | index.js:277-285 | sets role `admin` on the user with the id and leaves every other user and field unchanged; reports matched 1 iff the id exists, and modified 1 iff its role was not already `admin` |
| `Store.Database.HandleElevate` | index.js:276-286 | a caller the admin gate rejects gets its 401 or 403 and changes nothing; an admin caller gets the elevation and its `updateOne` result: matched 1 iff the id exists, modified 1 iff that user's role was not already `admin` |
| `Store.Database.Settle` | index.js:231-243 | payments gain exactly the submitted payment at the end; a cart remains iff its id is not listed; the deleted count is the number of carts removed; revenue rises by the payment's price; users and menu are unchanged |
| `Routes.PaymentsOf` | index.js:245-251 | returns the payments whose email matches, each as many times as it is stored, and no other payment |
| `Routes.AdminStatsRoute` | index.js:124-151 | admins only, with the gate's status otherwise; revenue equals the price reduction over all payments, and 0 for none |
| `Routes.OrderStatsRoute` | index.js:153-189 | admins only, with the gate's status otherwise; the result has distinct categories, each counted at least once, and with unique menu ids matches the per-id reference counts |
| `Routes.AdminFlagRoute` | index.js:102-115 | 401 without authentication; 403 for any other email whatever the caller's role; a reply iff the caller asks about their own email; `true` iff that user is also an admin, so `false` when no record exists |
| `Routes.PaymentHistoryRoute` | index.js:244-253 | 401 without authentication; 403 for any other email; a reply iff the caller asks about their own email, holding each of that email's payments as many times as it is stored and nothing else |

## Left out

- `POST /jwt` token issuance (index.js:42-46), the JWT signature and expiry checks, and the 1-hour lifetime. These are a foreign library's cryptography. The verifier is a parameter, so "a token verifies within its hour and fails after it" is not stated.
- Only the email of the decoded claims is modelled. A token without an email, where `req.decoded.email` is `undefined`, is not represented.
- The `estimatedDocumentCount` counts of `/admin-stats` (index.js:125-127). They are approximate by definition. `Routes.AdminStatsRoute` returns the revenue alone.
- `POST /create-payment-intent` (index.js:217-230). It calls Stripe over the network, and `parseInt(price * 100)` is floating-point arithmetic.
- Floating-point prices are not modelled; prices are integers. `$sum` skipping non-numeric or missing `price` fields is also not represented.
- Plain pass-through routes, namely the menu, testimonial, chefsRecommend and cart reads and writes, and `GET /users`, `DELETE /users/:id`, `POST /menu`, `DELETE /menu/:id` and `PATCH /menu/:id`. They add nothing beyond one database call. For the gated ones, the gate itself is modelled in `Gate.AdminGate`.
- Database failures. Every store call succeeds in the model, including a cart id string that `new ObjectId` would reject. So a settlement whose insert succeeds but whose delete throws, leaving an orphaned payment, is not represented.
- The store-assigned `_id` of payment documents and the `acknowledged` fields of insert results. Nothing modelled reads them.
- The order of `/order-stats` output. MongoDB's `$group` order is unspecified, so the lemmas speak about contents and distinctness only.
- Interleaving of concurrent requests, such as two settlements with overlapping `cartIds`. The model handles one request at a time.
- Express routing, CORS, JSON parsing, the `run()` bootstrap, the MongoDB client and `app.listen` (index.js:1-23, index.js:312-320).
