# A verified model of the debt tracker's core

The debt tracker is a small web application. Users register and log in.
They record the debts they owe, mark them paid, delete them and view a
summary. The backend keeps users and debts in PostgreSQL. It puts a Redis
read-through cache in front of the two read queries. The frontend holds
the fetched debts in a zustand store and filters them for display.

This project models that core in Dafny and proves its properties:

- **The data layer** (`schema.dfy`, `debt_model.dfy`, `user_model.dfy`).
  - The two tables are maps from id to row. The schema's constraints are
    invariants of those maps: primary keys, UNIQUE email, the foreign key,
    `CHECK (amount > 0)`, DECIMAL(10, 2) and VARCHAR(255).
  - Each SQL statement is one atomic method on a `Database` object.
  - The queries are functions of the tables.
  - Money is integer cents. SERIAL ids are counters. CURRENT_TIMESTAMP is a
    logical clock that each insert and each update advances, marking paid
    included, so a row with a larger id was created later. A delete leaves
    the clock alone.
- **The cache** (`cache.dfy`): a `CacheService` class with a key-to-entry
  map and a flag saying whether the client currently fails.
- **The handlers** (`debt_controller.dfy`, `auth_controller.dfy`,
  `auth_middleware.dfy`, `http.dfy`). Each is a method that returns the
  status code and body it writes.
  - The central result is the invariant `DebtController.Coherent`: every
    cached listing and every cached aggregation equals what the database
    would answer now.
  - Every debt handler preserves it. So every listing or aggregation a
    handler answers with is the current one, whether it came from the cache
    or not. Registration writes only the users table, and
    `AuthController.RegisterKeepsCacheCoherent` shows it keeps the
    invariant without touching the cache.
- **The frontend** (`store.dfy`, `debts_page.dfy`).
  - The two stores are classes.
  - Their list updates are functions on sequences. removeDebt is proved to
    match what the delete does to the owner's listing under every filter.
    updateDebtInStore is proved to match the update on the unfiltered
    listing.
  - On the page, which loads the store under its filter, updateDebtInStore
    after marking a shown debt paid, and addDebt after a create, are proved
    to show what a new fetch would show.
  - The page filter is a function, proved to partition the list.

Opaque collaborators are function-valued parameters. These are password
hashing and comparison, and token signing and verification.

The handlers are not tied to the HTTP framework. Each takes the
authenticated user id and the request fields it reads as parameters.

## Model

| member | source | states |
|---|---|---|
| Schema.Database.constructor | backend/src/models/User.js:8-37 | Both tables start empty and the schema invariants hold. |
| DebtModel.Owned | backend/src/models/Debt.js:20 | The WHERE clause finds a row exactly when one has that id and that owner, and then it is that row. |
| DebtModel.GetDebtById | backend/src/models/Debt.js:17-27 | Returns a row only when the row has that id and that owner; otherwise returns nothing; fails only when the server is unreachable. |
| DebtModel.ForeignDebtLooksMissing | backend/src/models/Debt.js:17-23 | Another owner's debt is looked up exactly as if its row did not exist. |
| DebtModel.ListFrom | backend/src/models/Debt.js:32-40 | Every row listed is a stored row of the owner that passes the filter, and there are no more of them than ids issued. |
| DebtModel.ListDebts | backend/src/models/Debt.js:30-43 | Every row listed is a stored row of the owner, with the requested is_paid when a filter is given. |
| DebtModel.ListFromContents | backend/src/models/Debt.js:30-43 | The listing holds exactly the owner's rows that pass the filter, in strictly decreasing id order. |
| DebtModel.ListDebtsNewestFirst | backend/src/models/Debt.js:40 | On valid tables the listing is ordered by created_at, newest first. |
| DebtModel.ListFromBeyond | backend/src/models/Debt.js:32 | Rows that are not the owner's do not affect the listing. |
| DebtModel.ListFromOwnerRows | backend/src/models/Debt.js:32 | Two maps that agree on one owner's rows give that owner the same listing. |
| DebtModel.ListDebtsOwnerRows | backend/src/models/Debt.js:30-43 | One owner's listing, under every filter, depends only on that owner's rows. |
| DebtModel.ListFromFiltered | backend/src/models/Debt.js:35-38 | The is_paid-filtered listing is the unfiltered listing with the other state's rows removed. |
| DebtModel.GetDebtsByUser | backend/src/models/Debt.js:30-47 | The result is exactly the owner's rows, filtered on is_paid only when a filter is given, newest first. |
| DebtModel.Aggregate | backend/src/models/Debt.js:129-139 | total_debts is the number of rows, and neither conditional count exceeds it. The three sums are NULL exactly when there are no rows. Otherwise total_amount is the sum of all amounts. |
| DebtModel.AggregateDebts | backend/src/models/Debt.js:127-139 | total_debts is the length of the owner's listing, and total_amount is the sum of its amounts. All three totals are NULL exactly when the listing is empty. |
| DebtModel.SumAmountsSplit | backend/src/models/Debt.js:134-136 | Splitting rows by a predicate and its negation splits the sum of their amounts. |
| DebtModel.AggregateConsistent | backend/src/models/Debt.js:129-139 | pending_count + paid_count = total_debts, and pending_total + paid_total = total_amount. All three sums are NULL exactly when there are no rows. |
| DebtModel.AggregateMatchesListings | backend/src/models/Debt.js:129-139 | The three counts equal the lengths of the unfiltered, pending and paid listings. For an owner with debts, total_amount, pending_total and paid_total are the sums of the amounts in those three listings. |
| DebtModel.SumAmountsAtLeastCount | backend/src/models/User.js:31 | Every amount is at least one cent, so a sum of amounts is at least the number of rows summed. |
| DebtModel.AggregateTotalsBounded | backend/src/models/Debt.js:134-136 | On valid tables each total is at least its count. |
| DebtModel.GetDebtAggregations | backend/src/models/Debt.js:127-144 | The counts match the listings, and the two counts add up to the total. For an owner with debts, each total is the sum of the amounts of the owner's rows, pending rows or paid rows, and the two totals add up to the total amount. All three totals are NULL exactly when the owner has no debts. |
| DebtModel.NewDebt | backend/src/models/Debt.js:7 | The inserted row takes the next id, the given owner, description, amount and due date, is_paid false, paid_amount 0, and created_at and updated_at both now. |
| DebtModel.Inserted | backend/src/models/Debt.js:7 | After the insert the new row is stored under its id, every other row keeps its presence and value, the users are unchanged, and the id counter and the clock each advance by one. |
| DebtModel.CreateAddsOneRow | backend/src/models/Debt.js:4-10 | The insert adds one row owned by the user with the given description, amount and due date, is_paid false and paid_amount 0. Every other row stays; the tables stay valid; the new debt heads its owner's listing; no other owner's listing changes. |
| DebtModel.CreateDebt | backend/src/models/Debt.js:4-14 | Inserts that row and returns it. It fails without change when the server is unreachable, or when the foreign key, VARCHAR(255), DECIMAL(10, 2) or CHECK (amount > 0) refuses the row. |
| DebtModel.ReplaceKeepsOtherListings | backend/src/models/Debt.js:80-89 | Rewriting one row of an owner leaves every other owner's listing unchanged. |
| DebtModel.DeleteKeepsOtherListings | backend/src/models/Debt.js:116-119 | Deleting one row of an owner leaves every other owner's listing unchanged. |
| DebtModel.FieldOf | backend/src/models/Debt.js:70 | The value of a column, written as the SET assignment of that column. |
| DebtModel.RowFromFields | backend/src/models/User.js:27-37 | A row is determined by its id, owner and timestamps together with its five data columns. |
| DebtModel.Assign | backend/src/models/Debt.js:70 | One SET assignment sets its own column and no other. |
| DebtModel.AssignAllSets | backend/src/models/Debt.js:68-83 | A SET clause gives every named column its value and leaves every other column, and the row's identity, unchanged. |
| DebtModel.Replaced | backend/src/models/Debt.js:80-89 | After an UPDATE, the row is stored under its id, every other row keeps its presence and value, the users and counters are unchanged, and the clock advances by one. |
| DebtModel.UpdateOutcome | backend/src/models/Debt.js:50-93 | Gives "not found" exactly for a missing or foreign debt and "cannot edit a paid debt" exactly for a paid one. An empty update returns the row as it is. Otherwise the row gets exactly the given columns, keeps every other column and its id, owner and created_at, and gets updated_at now. |
| DebtModel.UpdateOutcomeWrites | backend/src/models/Debt.js:80-89 | A successful update that sets something leaves the tables valid. |
| DebtModel.UpdateDebt | backend/src/models/Debt.js:50-93 | Builds the SET list key by key in a loop and returns UpdateOutcome. The tables change only for a successful non-empty update, so a failed or empty one even keeps updated_at. |
| DebtModel.PaidRow | backend/src/models/Debt.js:99 | The paid row has is_paid true and paid_amount equal to amount. Every other column is unchanged except updated_at. |
| DebtModel.PaidRowSettles | backend/src/models/Debt.js:99 | Paying a paid row again changes only updated_at. |
| DebtModel.MarkDebtAsPaid | backend/src/models/Debt.js:96-106 | Makes the owned row paid in full and returns it. For a missing or foreign id it returns nothing and changes nothing. |
| DebtModel.MarkPaidTwice | backend/src/models/Debt.js:96-105 | A second call finds the row again and leaves every other row as the first call did; the row itself differs only in updated_at. |
| DebtModel.DeleteDebt | backend/src/models/Debt.js:109-124 | For a missing or foreign debt it fails with "not found" and changes nothing. Otherwise it removes exactly that row, paid or not, and returns its prior state. |
| UserModel.FindByEmail | backend/src/models/User.js:75 | Finds an id whose email is exactly the one given, or none when no user below the bound has it. |
| UserModel.UserWithEmailExact | backend/src/models/User.js:73-80 | The lookup finds a user exactly when one has that email, and under UNIQUE (email) it is the only one. |
| UserModel.UserWithEmail | backend/src/models/User.js:75 | A user found has exactly the given email and is a stored user. No user found means no stored user has that email. |
| UserModel.AtMostOneUserPerEmail | backend/src/models/User.js:10 | At most one user has a given email. |
| UserModel.GetUserByEmail | backend/src/models/User.js:73-80 | Returns the full row of the user with exactly that email, password hash included; returns nothing when there is none. |
| UserModel.GetUserById | backend/src/models/User.js:83-90 | Returns the user's id, email, name and created_at, which has no password field; returns nothing for an unknown id. |
| UserModel.RegisterAddsOneUser | backend/src/models/User.js:59-70 | A registration adds exactly one user, keeps the tables valid and changes no debt listing. |
| UserModel.RegisterUser | backend/src/models/User.js:59-70 | Stores hashPassword(password) in the password column. Returns only id, email, name and created_at. It fails without change on a taken email, an oversized column or an unreachable server. |
| UserModel.WithoutUser | backend/src/models/User.js:29 | Deleting a user removes that user and keeps every other user. ON DELETE CASCADE keeps exactly the debts of other owners, unchanged. The counters and the clock are unchanged. |
| UserModel.DeleteUserCascades | backend/src/models/User.js:29 | Deleting a user removes exactly that user's debts. The tables stay valid, the user's listing is empty, and every other owner's listing is unchanged. |
| Cache.PrefixDeterminesUser | backend/src/utils/cache.js:49 | A key that starts with `user:<u>:` and also with `user:<v>:…` has u = v. So `user:1:` is not a prefix of `user:10:…`. |
| Cache.MatchingKeys | backend/src/utils/cache.js:49-50 | The keys the pattern `user:<id>:*` matches are exactly the stored keys that start with `user:<id>:`. |
| Cache.Invalidated | backend/src/utils/cache.js:47-53 | Removes every key that starts with `user:<id>:` and no other key, and keeps the entries of the remaining keys. |
| Cache.InvalidateKeepsOtherUsers | backend/src/utils/cache.js:49-53 | Invalidating a user keeps every key of every other user, with its entry. |
| Cache.InvalidateUserOneKeepsUserTen | backend/src/utils/cache.js:49-53 | Invalidating user 1 keeps `user:10:debts:all`. |
| Cache.InvalidateIdempotent | backend/src/utils/cache.js:50-53 | Invalidating twice is the same as invalidating once. |
| Cache.InvalidateNoMatch | backend/src/utils/cache.js:50-53 | With no matching key, invalidation deletes nothing. |
| Cache.Lookup | backend/src/utils/cache.js:21-29 | get finds the stored value, or nothing when the key is absent or the client fails. |
| Cache.Stored | backend/src/utils/cache.js:31-37 | SETEX stores the value under the key and changes no other key. A time to live that is not positive is refused and stores nothing. |
| Cache.SetThenGet | backend/src/utils/cache.js:24 | A get after a set of the same key returns the value that was set. |
| Cache.Deleted | backend/src/utils/cache.js:39-45 | delete removes only the given key and keeps every other entry. |
| Cache.AfterInvalidation | backend/src/utils/cache.js:47-57 | While the client fails, invalidation changes nothing. Otherwise it removes exactly the user's keys and keeps every other key with its entry. |
| Cache.CacheService.constructor | backend/src/utils/cache.js:5-11 | An empty store behind a client that fails or not. |
| Cache.CacheService.Get | backend/src/utils/cache.js:21-29 | Returns Lookup of the current entries. It has no error result: a failing client reads as an absent key. |
| Cache.CacheService.Set | backend/src/utils/cache.js:31-37 | The time to live defaults to 3600. While the client fails nothing changes; otherwise the entries become Stored. There is no error result. |
| Cache.CacheService.Delete | backend/src/utils/cache.js:39-45 | Entries become Deleted, or unchanged while the client fails. There is no error result. |
| Cache.CacheService.InvalidateUserCache | backend/src/utils/cache.js:47-57 | Entries become Invalidated, or unchanged while the client fails. There is no error result. |
| DebtController.PaidFilter | backend/src/controllers/debtController.js:55 | The isPaid text "true" gives filter true and "false" gives filter false; any other text, or none, gives no filter. |
| DebtController.PaidFilterOfSuffix | backend/src/controllers/debtController.js:45-55 | The filter is a function of the key's last part, so one key never stands for two different listings. |
| DebtController.DebtsKey | backend/src/controllers/debtController.js:45 | The key is `user:<id>:debts:` followed by isPaid, or `all` when isPaid is absent or empty, so it starts with the user's prefix. |
| DebtController.AggregationsKey | backend/src/controllers/debtController.js:169 | The key is `user:<id>:aggregations`, so it starts with the user's prefix. |
| DebtController.DebtsKeyInjective | backend/src/controllers/debtController.js:45 | Two listing keys are equal only when they have the same user and the same filter. |
| DebtController.AggregationsKeyInjective | backend/src/controllers/debtController.js:169 | An aggregation key belongs to one user. |
| DebtController.DebtsKeyNotAggregationsKey | backend/src/controllers/debtController.js:45-169 | No listing key equals an aggregation key. |
| DebtController.CoherentAfterWrite | backend/src/controllers/debtController.js:24-27 | A write that changes only one user's rows, followed by invalidating that user, keeps every cached listing and aggregation current. |
| DebtController.CoherentAfterStoreList | backend/src/controllers/debtController.js:55-58 | Caching the listing just queried keeps the cache coherent. |
| DebtController.CoherentAfterStoreAggregations | backend/src/controllers/debtController.js:179-182 | Caching the aggregation just queried keeps the cache coherent. |
| DebtController.InvalidatedMisses | backend/src/controllers/debtController.js:109 | After invalidation no listing and no aggregation of the user is cached, so the next read misses. |
| DebtController.CreateNewDebt | backend/src/controllers/debtController.js:14-36 | An amount that is not positive gets 400, with no insert and no invalidation. Otherwise the handler inserts, then invalidates the owner, then answers 201 with the new debt. A failed insert gets 500 with nothing changed. The cache stays coherent. |
| DebtController.GetUserDebts | backend/src/controllers/debtController.js:39-67 | A hit gets 200 with the cached listing and no query, so it answers even with the server unreachable. A miss queries, caches the result under the key for 3600 seconds and answers that same listing. Every 200 listing equals the database's current listing. |
| DebtController.GetDebt | backend/src/controllers/debtController.js:70-87 | 200 with the owned debt exactly when it exists and is owned; 404 for a missing or foreign debt; 500 when the server is unreachable. |
| DebtController.RequestedUpdates | backend/src/controllers/debtController.js:101-104 | The update holds exactly the provided fields, with dueDate written as due_date, and never paid_amount or is_paid. |
| DebtController.UpdateDebtById | backend/src/controllers/debtController.js:90-118 | A provided amount that is not positive gets 400 before the store is touched. A failed update gets 400 with the error's message and no invalidation. A successful one invalidates the owner and answers 200 with the updated row. The cache stays coherent. |
| DebtController.MarkAsPaid | backend/src/controllers/debtController.js:121-142 | A missing or foreign debt gets 404 with no invalidation. Otherwise the handler invalidates the owner and answers 200 with the paid row. An unreachable server gets 500. |
| DebtController.RemoveDebt | backend/src/controllers/debtController.js:145-162 | A missing or foreign debt gets 400 "Deuda no encontrada" with no invalidation. Otherwise the row is deleted, the owner invalidated, and the answer is 200 with the deleted row. |
| DebtController.GetAggregations | backend/src/controllers/debtController.js:165-191 | A hit returns the cached aggregation. A miss queries, caches the result under `user:<id>:aggregations` for 3600 seconds and answers it. Every 200 aggregation equals the database's current one. |
| AuthController.RegisterKeepsCacheCoherent | backend/src/controllers/authController.js:4-31 | Registering a user changes no cached listing or aggregation, so a coherent cache stays coherent without an invalidation. |
| AuthController.Register | backend/src/controllers/authController.js:4-31 | A taken email gets 400 and no user is created. Otherwise the user is created and the answer is 201 with id, email and name and a token for the new id. A store failure gets 500. |
| AuthController.Login | backend/src/controllers/authController.js:34-70 | A missing or empty field gets 400 before any lookup. An unknown email and a wrong password get the identical 401. Success is 200 with the user's id, email and name and a token for that id. A store failure gets 500. |
| AuthMiddleware.Split | backend/src/middleware/auth.js:5 | The pieces of a split contain no separator, and there is always at least one. |
| AuthMiddleware.JoinSplit | backend/src/middleware/auth.js:5 | Joining the pieces of a split gives back the string. |
| AuthMiddleware.SplitPiece | backend/src/middleware/auth.js:5 | A piece without separators splits to itself, and before a separator it becomes the first piece. |
| AuthMiddleware.SplitJoin | backend/src/middleware/auth.js:5 | Splitting the join of pieces without separators gives back the pieces. |
| AuthMiddleware.BearerToken | backend/src/middleware/auth.js:5-7 | The token is the second space-separated part of the header when that part exists and is not empty. |
| AuthMiddleware.BearerTokenOfHeader | backend/src/middleware/auth.js:5 | The header `<scheme> <token> …` yields exactly the token, whatever the scheme. |
| AuthMiddleware.NoTokenWithoutSpace | backend/src/middleware/auth.js:5-9 | A header without a space yields no token. |
| AuthMiddleware.Request.constructor | backend/src/middleware/auth.js:3 | A request carries its header and no user id yet. |
| AuthMiddleware.Authenticate | backend/src/middleware/auth.js:3-21 | With no token: 401 "No token proporcionado". With a token that verifyToken rejects: 401 "Token inválido o expirado". In both cases next is not called and req.userId is unchanged. Otherwise req.userId is the token's user and next is called exactly once. Exactly one of a 401 or the call of next happens. |
| Store.ReplacedById | frontend/src/store/index.js:46-48 | Same length; each entry is the updated debt when their ids match, and the old entry otherwise. |
| Store.WithoutId | frontend/src/store/index.js:41 | The kept entries are entries of the list whose id differs, and there are no more of them than in the list. |
| Store.WithoutIdExact | frontend/src/store/index.js:41 | Drops every entry with the id and keeps every other entry, as often as it occurred and in order. |
| Store.ReplacedByAbsentId | frontend/src/store/index.js:44-49 | Updating an id that is not in the list leaves the list unchanged. |
| Store.ListFromWithout | frontend/src/store/index.js:41 | Removing a row from the table removes exactly its entry from the listing. |
| Store.RemoveDebtMatchesDelete | frontend/src/store/index.js:39-42 | removeDebt applied to the listing before deleteDebt gives the listing after it, under every filter. |
| Store.ListFromReplaced | frontend/src/store/index.js:46-48 | Rewriting a row in the table rewrites exactly its entry in the unfiltered listing. |
| Store.UpdateInStoreMatchesUpdate | frontend/src/store/index.js:44-49 | updateDebtInStore applied to the full listing before a row is rewritten gives the full listing after it. |
| Store.DebtStore.constructor | frontend/src/store/index.js:24-27 | The initial state has no debts, none selected, filter null and loading false. |
| Store.DebtStore.SetDebts | frontend/src/store/index.js:29 | Replaces the list and no other field. |
| Store.DebtStore.SetSelectedDebt | frontend/src/store/index.js:30 | Replaces the selection and no other field. |
| Store.DebtStore.SetFilter | frontend/src/store/index.js:31 | Replaces the filter and no other field. |
| Store.DebtStore.SetLoading | frontend/src/store/index.js:32 | Replaces the loading flag and no other field. |
| Store.DebtStore.AddDebt | frontend/src/store/index.js:34-37 | The new list is the debt followed by the old list; no other field changes. |
| Store.DebtStore.RemoveDebt | frontend/src/store/index.js:39-42 | The new list is WithoutId of the old list; no other field changes. |
| Store.DebtStore.UpdateDebtInStore | frontend/src/store/index.js:44-49 | The new list is ReplacedById of the old list; no other field changes. |
| Store.InitialToken | frontend/src/store/index.js:5 | The initial token is the stored one when that is non-empty, and null otherwise. |
| Store.AuthStore.constructor | frontend/src/store/index.js:3-6 | No user, the initial token and loading false. |
| Store.AuthStore.SetUser | frontend/src/store/index.js:8-13 | Sets both user and token. The token is stored in the browser only when it is non-empty. |
| Store.AuthStore.Logout | frontend/src/store/index.js:15-18 | Clears user and token and removes the stored token. |
| Store.AuthStore.SetLoading | frontend/src/store/index.js:20 | Replaces the loading flag and no other field. |
| DebtsPage.FilteredDebts | frontend/src/pages/DebtsPage.jsx:85-89 | Every debt shown is in the store's list. Under filter true it is paid, and under filter false it is pending. The page never shows more debts than the list holds. |
| DebtsPage.FilteredExact | frontend/src/pages/DebtsPage.jsx:86-87 | Filter true keeps exactly the debts with is_paid, and filter false exactly those without, each as often as it occurs. |
| DebtsPage.NoFilterShowsAll | frontend/src/pages/DebtsPage.jsx:88 | No filter keeps every debt. |
| DebtsPage.FilteredIsSubsequence | frontend/src/pages/DebtsPage.jsx:85 | The shown list is an order-preserving subsequence of the store's list. |
| DebtsPage.PaidAndPendingPartition | frontend/src/pages/DebtsPage.jsx:86-87 | The paid and pending views partition the list: each debt is in exactly one, and the counts and multisets add up to the list's. |
| DebtsPage.PageFilterMatchesServer | frontend/src/pages/DebtsPage.jsx:85-89 | Filtering the full listing on the page gives the listing the server filters itself. |
| DebtsPage.PageFilterOfFilteredListing | frontend/src/pages/DebtsPage.jsx:85-89 | Filtering an already server-filtered listing changes nothing. |
| DebtsPage.FilterReplacedFiltered | frontend/src/store/index.js:44-49 | Replacing by id commutes with a filter when the replacement passes the filter only if the entry it replaces did. |
| DebtsPage.PageAfterUpdateInStore | frontend/src/components/DebtList.jsx:51 | After updateDebtInStore with the rewritten row, the page shows what a new fetch under its filter would show. This holds whenever the new row passes the filter only if the old one did. |
| DebtsPage.PageAfterMarkAsPaid | frontend/src/components/DebtList.jsx:27-28 | After marking a shown debt paid and calling updateDebtInStore with the answer, the page shows what a new fetch would show, under every filter. |
| DebtsPage.PageAfterAddDebt | frontend/src/components/DebtForm.jsx:37 | After addDebt with the created debt, the page shows what a new fetch would show, under every filter. |
| Scenario.DebtLifecycle | backend/src/models/Debt.js:4-144 | A walk through createDebt, getDebtsByUser, markDebtAsPaid, getDebtAggregations, updateDebt and deleteDebt. Create "Loan" for 50.00: it is listed alone, unpaid, with nothing paid. Once paid, the aggregation has one paid debt of 50.00 and none pending. Editing its amount is refused. Once deleted, the listing is empty. |

## Notes on the source

- getAggregations passes 3600 seconds explicitly (`debtController.js:182`).
  That is the same as the default time to live that getUserDebts gets
  (`cache.js:31`), so both kinds of entry live one hour.
- Inside updateDebt, the guard `key !== 'is_paid' || !debt.is_paid`
  (`Debt.js:69`) always holds: a paid debt was refused at `Debt.js:59-61`.
  The loop in `DebtModel.UpdateDebt` keeps every key, and its invariant
  `fields == updates[..i]` records this.
- updateDebtById answers 400 for every failure, including an unreachable
  database (`debtController.js:115-116`). removeDebt does the same
  (`debtController.js:159-160`). markAsPaid and getDebt answer 500 for
  those. The model keeps each handler's own status codes.

## Left out

- PostgreSQL and Redis clients, connection setup, pooling and DDL execution.
  The tables and the cache are abstract state. An unreachable server is the
  `online` flag, and a failing cache client is the `failing` flag.
- The flags do not change during a request, and the model never changes
  them between requests. Suppose the cache client failed while a write
  invalidated it, and the client then recovered with its old entries. The
  cache could then serve stale entries. `DebtController.Fresh` does not
  cover that.
- Real expiry of cache entries. An entry keeps its time to live but never
  expires in the model. Expiry can only remove entries, which never breaks
  coherence.
- The JSON round trip through Redis (`cache.js:24`, `cache.js:33`) is
  taken as the identity on debts and aggregations. The strings that
  PostgreSQL returns for DECIMAL and TIMESTAMP values are not modelled.
- Timestamps are a logical clock that each insert and each update advances by one, so no
  two rows share a created_at. In PostgreSQL two rows created in the same
  instant can tie, and their order is then unspecified. In the model they
  come in decreasing id order.
- DECIMAL(10, 2) rounding of an input with more than two decimals.
  Amounts are integer cents, and a JavaScript number that is not a whole
  number of cents is not modelled.
- The exact text of the driver's error messages. `Schema.ErrorMessage`
  gives fixed placeholder texts for a constraint violation and for an
  unreachable server. The two messages the data layer raises itself are
  exact.
- The SERIAL counter advancing on a failed insert. In the model a failed
  statement changes nothing.
- The `catch` of authMiddleware (`auth.js:18-20`). verifyToken catches its
  own errors and returns null, and the optional chaining on the header
  cannot throw, so in this model that branch cannot be reached.
  `AuthMiddleware.Authenticate` has no such path.
- bcrypt and JWT internals: hashPassword, comparePassword, generateToken
  and verifyToken are parameters. A signed token also holds its issue
  time, which a function of the user id does not capture.
- UserModel.RegisterUser: hashPassword is a deterministic function of the
  password. bcrypt draws a random salt for each hash (`utils/auth.js`), and
  the model does not capture that. Its contract fixes the stored password
  to hashPassword's result, but says nothing about what that hash reveals.
- The request validators and Express routing. Handlers receive the fields
  they read as typed values: the user id as a number, and debtId as a
  number. Text that is not a number becomes a driver error in the source,
  and the model does not cover it. Register's email and password are taken
  to be present, as the route's validator demands.
- users.updated_at (`User.js:14`), which no operation reads or writes
  apart from its default.
- CSV and JSON export, React rendering, forms, navigation and axios calls.
- Concurrency: each request runs alone. That includes the gap between
  updateDebt's lookup and its UPDATE.
- No operation of the source deletes a user. `UserModel.DeleteUserCascades`
  states what the foreign key's cascade does to the tables when a user row
  is deleted.
