# Inventory ledger, requisitions and stock reports — a verified model

This project models the core of the NMDPRA store-keeping application (a Flask app over
SQLAlchemy and SQLite). It covers four parts:

- **Ledger-backed inventory.** Categories and items are kept with admin-only, case-insensitive
  uniqueness and location checks. Every stock movement is an entry in the
  `inventory_transactions` ledger: `initial`, `purchase`, `adjustment` or `issue`. Purchases
  restock items and upsert per-item supplier records. The invariant that holds the design
  together is `Schema.Consistent`: every item's quantity equals the net of its ledger entries.
  Every writer is proved to preserve it, except where the source itself breaks it (see
  Findings).
- **Requisitions.** A request moves through pending, approved, partially approved, rejected
  and collected:
  - its items are approved or rejected in a review;
  - stock is re-checked and issued when the request is collected;
  - requests can be soft-deleted, restored and permanently deleted.
- **Stock reports.** The reporting window is derived from the form (monthly, weekly, daily,
  clamped to now). `generate_report` replays the ledger into opening stock, purchases,
  adjustments, Headquarters and Jabi issues, closing stock and value, grouped by category
  with category and grand totals. Its helpers `get_opening_stock` and
  `daterange_skip_weekends` are modelled too.
- **Report cache.** Generated reports are kept for 24 hours, readable only by their owner, with
  JSON payload columns and a cleanup of expired rows.

## Modelling choices

- **The database session** is a class `Schema.Store`:
  - `work` is what the application sees, and `durable` is what the last commit wrote.
  - `Commit` and `Rollback` act on the pair. Each request's teardown discards what was not
    committed.
  - This makes the mid-operation commits of `new_purchase` and `create_request` visible.
  - Rows are values inside `Schema.Tables`. All autoincrement ids come from one counter, and
    their values carry no meaning.
- **Foreign keys are enforced.** SQLite runs with `PRAGMA foreign_keys=ON` (app/__init__.py).
  - Deleting an item cascades to its ledger entries, supplier records and request lines.
  - An issue entry's reference to its request has no ON DELETE action, so permanently
    deleting such a request fails.
- **Time, the user and the admin flag are parameters.**
  - Timestamps are integers (naive datetimes in microseconds), and dates are Python's
    proleptic ordinals.
  - The columns declared with `default=datetime.now(UTC)` are not callables, so they hold the
    instant the models were imported (`Store.importTime`).
  - The report cache's defaults are lambdas, so they use the real time.
- **Money is in exact integer minor units** (the source has `Decimal` and `float`).
- **JSON columns hold trees** (`ReportCache.Json`). The encoder writes a `Decimal` as its string.

## Model

| member | source | states |
|---|---|---|
| Schema.MovedConsistent | app/models/inventory_transaction.py:9-20 | appending a movement that moves its item's quantity by the entry's quantity keeps every item's quantity equal to its ledger balance |
| Schema.MovedIntegrity | app/models/inventory_transaction.py:9-20 | such a movement keeps every foreign key and the fresh-id bound, given the entry's request exists |
| Schema.Store.Commit | app/models/inventory.py:41 | the pending state becomes the durable one |
| Schema.Store.Rollback | app/models/inventory.py:45 | the pending state is discarded and becomes the last durable one |
| Ledger.BalanceAppend | app/models/inventory_transaction.py:9-20 | the balance of a concatenated ledger is the sum of the balances of its parts |
| Ledger.BalanceSnoc | app/models/inventory_transaction.py:9-20 | one more entry moves only its own item's balance, by its quantity |
| Ledger.BalanceAbsent | app/models/inventory_transaction.py:9-20 | an item that no entry mentions has balance zero |
| Ledger.WithoutItem | app/models/inventory.py:279-294 | the cascade keeps an entry exactly when it belongs to another item |
| Ledger.WithoutItemCounts | app/models/inventory.py:279-294 | each entry of another item is kept as often as the ledger holds it, and every entry of the deleted item goes |
| Ledger.WithoutItemSplits | app/models/inventory.py:279-294 | the kept entries stay in ledger order: the cascade of a concatenation is the concatenation of the cascades |
| Ledger.BalanceWithoutItem | app/models/inventory.py:279-294 | the cascade on deleting an item leaves every other item's balance as it was |
| Inventory.CreateCategory | app/models/inventory.py:27-47 | non-admins and names taken by any category up to case are refused with nothing changed; otherwise exactly one category is added under a fresh id and committed; the invariants and name uniqueness are kept |
| Inventory.UpdateCategory | app/models/inventory.py:50-81 | refusals for non-admin, unknown id, or a rename onto another category's name (the category itself excluded); otherwise the name changes only when non-empty and different, and a given description replaces the old one |
| Inventory.DeleteCategory | app/models/inventory.py:84-106 | refused while any item references the category; otherwise only that category is removed |
| Inventory.NewItemConsistent | app/models/inventory.py:196-212 | the new item's initial entry is the only entry for its fresh id, so the ledger invariant holds after creation |
| Inventory.NewItemIntegrity | app/models/inventory.py:196-212 | creating an item in an existing category keeps the foreign keys |
| Inventory.NewItemDistinct | app/models/inventory.py:169-173 | a name free up to case keeps item names distinct up to case |
| Inventory.CreateInventory | app/models/inventory.py:166-218 | refuses non-admins, a duplicate name up to case, an unknown category and a location outside ["Headquarters"] in that order; otherwise adds the item and exactly one initial entry for the whole quantity stamped with the item's creation time, keeping the invariants |
| Inventory.AdjustQuantity | app/models/inventory.py:297-330 | a change that would make the stock negative is refused with nothing changed; otherwise the quantity becomes old + change, exactly one adjustment entry of `change` is appended, the result is never negative, and the ledger invariant holds |
| Inventory.EditKeeps | app/models/inventory.py:233-258 | writing back an item with its quantity unchanged keeps the ledger invariant, and keeps the foreign keys and name uniqueness under the edit checks |
| Inventory.StageFieldEdits | app/models/inventory.py:233-258 | the field edits are applied in source order; the refusal is the first failing check; the quantity never changes; nothing is committed, and fields edited before a refusal stay pending |
| Inventory.UpdateInventory | app/models/inventory.py:221-276 | a changed quantity goes through an adjustment entry for new − old, and an unchanged one writes no entry; a refusal commits nothing; on success the edited fields and the new quantity are committed, and the invariants hold |
| Inventory.EditFields | app/models/inventory.py:233-258 | the refusal is the first failing check of name, category and location; the quantity is kept; on no refusal the item carries every requested field; the resulting name is taken by no other item, and the category is the old one or an existing one |
| Inventory.SaveQuantity | app/models/inventory.py:260-276 | a negative new quantity is refused, leaving the pending edits uncommitted; an unchanged quantity commits the pending edits without an entry; a changed one commits an adjustment entry for new − old, and the invariants hold |
| Inventory.SuppliersWithout | app/models/inventory.py:279-294 | the cascade keeps a supplier record exactly when it belongs to another item |
| Inventory.SuppliersWithoutCounts | app/models/inventory.py:279-294 | each record of another item is kept as often as the table holds it |
| Inventory.SuppliersWithoutSplits | app/models/inventory.py:279-294 | the kept records stay in table order |
| Inventory.LinesWithout | app/models/inventory.py:279-294 | the cascade keeps a request line exactly when it is for another item |
| Inventory.LinesWithoutCounts | app/models/inventory.py:279-294 | each line for another item is kept as often as the request holds it |
| Inventory.LinesWithoutSplits | app/models/inventory.py:279-294 | the kept lines stay in order |
| Inventory.RequestsWithout | app/models/inventory.py:279-294 | every request stays with all its other fields; none of its lines refers to the deleted item; each line for another item is kept as often as before |
| Inventory.DeleteInventory | app/models/inventory.py:279-294 | only admin status and existence are checked; the item is deleted together with everything that cascades from it; ledger consistency and the foreign keys are kept |
| Inventory.DeleteKeepsIntegrity | app/models/inventory.py:279-294 | after the cascade no row refers to the deleted item |
| Inventory.LedgerAfterDelete | app/models/inventory.py:279-294 | the kept ledger entries name surviving items and existing requests |
| Inventory.SuppliersAfterDelete | app/models/inventory.py:279-294 | the kept supplier records name surviving items |
| Inventory.RequestsAfterDelete | app/models/inventory.py:279-294 | the kept request lines name surviving items |
| Suppliers.FindSupplierFrom | app/models/inventory_supplier.py:27 | the first record at or after a position matching the item and exact name, or none there |
| Suppliers.FindSupplier | app/models/inventory_supplier.py:27 | the earliest record matching the item and exact supplier name, or none at all |
| Suppliers.GetOrCreateSupplier | app/models/inventory_supplier.py:23-52 | a failing write rolls back the whole session and reports an error; otherwise the upsert is committed together with everything pending, and its record's id is returned |
| Suppliers.UpsertedFinds | app/models/inventory_supplier.py:27-49 | after the upsert the lookup finds the returned record; it carries the given price, and is dated now (an existing record) or with the column default (a new one) |
| Suppliers.UpsertedFrame | app/models/inventory_supplier.py:27-49 | only the matching record changes, or exactly one record is appended when none matched; items, ledger, categories and requests are untouched |
| Suppliers.UpsertedKeepsUnique | app/models/inventory_supplier.py:27-49 | the upsert never creates a second record for the same item and supplier name |
| Suppliers.UpsertedIntegrity | app/models/inventory_supplier.py:41-49 | the upsert for an existing item keeps the foreign keys |
| Suppliers.RecordsOf | app/models/inventory_supplier.py:57 | a record is listed exactly when it belongs to the item |
| Suppliers.RecordsOfCounts | app/models/inventory_supplier.py:57 | each of the item's records is listed as often as the table holds it, and no other record is |
| Suppliers.RecordsOfSplits | app/models/inventory_supplier.py:57 | the item's records stay in table order |
| Suppliers.SuppliersFor | app/models/inventory_supplier.py:55-57 | a permutation of the item's records, most recent purchase first |
| Purchases.Restocked | app/purchases/views.py:106-111 | restocking keeps the set of items and changes no table but the items |
| Purchases.RestockedItem | app/purchases/views.py:106-111 | the line's item gains the quantity, takes a named supplier and a non-zero price, and keeps everything else; every other item is unchanged |
| Purchases.Bought | app/purchases/views.py:106-135 | carrying out one line changes the items exactly as restocking does; the supplier write touches no item |
| Purchases.Purchased | app/purchases/views.py:94-137 | carrying out all lines keeps the set of items |
| Purchases.PurchasedStock | app/purchases/views.py:94-137 | each item's stock rises by exactly the quantities of the lines that name it |
| Purchases.NewPurchase | app/purchases/views.py:86-143 | non-admins are refused with nothing changed; otherwise the session and the commits follow the handler loop as written, with commits mid-loop through the supplier upsert and at the end |
| Purchases.RunAllAccepted | app/purchases/views.py:94-139 | when every line is accepted and no supplier write fails, the rest of the loop commits exactly the in-order purchase |
| Purchases.NewPurchaseAllAccepted | app/purchases/views.py:94-139 | a fully accepted purchase commits exactly the in-order purchase, with entries stamped at the import instant |
| Purchases.BoughtConsistent | app/purchases/views.py:106-135 | one line raises the stock and the item's balance by the same quantity, so the ledger invariant holds |
| Purchases.PurchasedConsistent | app/purchases/views.py:94-137 | a whole purchase keeps the ledger invariant |
| Purchases.BoughtIntegrity | app/purchases/views.py:106-135 | one line keeps the foreign keys |
| Purchases.PurchasedIntegrity | app/purchases/views.py:94-137 | a whole purchase keeps the foreign keys |
| Purchases.BoughtLedger | app/purchases/views.py:126-135 | one line appends exactly one purchase entry for its item, quantity, price and user; earlier entries stay |
| Purchases.PurchasedEntries | app/purchases/views.py:94-135 | a purchase appends one purchase entry per line in line order, each matching its line; earlier entries stay |
| Purchases.RefusalFrom | app/purchases/views.py:95-103 | no refusal exactly when every remaining line names an existing item with a positive quantity |
| Purchases.AsWrittenPurchaseStampedAtImport | app/models/inventory_transaction.py:17 | as written, every entry of an accepted purchase carries the import instant, whatever the time of purchase |
| Purchases.InterruptedPurchaseBreaksLedger | app/purchases/views.py:101-121 | as written, a bad second line after a supplier line leaves the first line's stock committed without its entry, and the ledger invariant broken |
| Purchases.FailedSupplierWriteBreaksLedger | app/models/inventory_supplier.py:50-52 | as written, a failed supplier write rolls back the stock increase but the entry is still committed, so the ledger invariant is broken |
| Purchases.NewPurchaseAtomic | app/purchases/views.py:86-143 | corrected: a refused line leaves the database as it was; otherwise exactly the in-order purchase is committed once; ledger consistency and the foreign keys always hold afterwards |
| Purchases.AtomicPurchaseStampedNow | app/purchases/views.py:126-135 | corrected: every new entry is a purchase stamped with the purchase time |
| PurchaseList.EndOfDay | app/purchases/views.py:60-63 | the end bound is the last microsecond before the next day, and is undefined only for the last representable date |
| PurchaseList.Selection | app/purchases/views.py:36-66 | each entry appears exactly as often as in the ledger if it passes every filter, and never otherwise |
| PurchaseList.ListPurchases | app/purchases/views.py:28-82 | lists exactly the purchase entries passing the stripped filters, newest first; the form values are echoed back, and both dates are cleared when one is invalid; a server error only for an end date of 9999-12-31 |
| PurchaseList.EndOfDayCoversDay | app/purchases/views.py:55-63 | every instant of the end day is inside the bound, and the next day is not |
| PurchaseList.InvalidStartDropsBoth | app/purchases/views.py:52-69 | an invalid start date lifts both date filters |
| PurchaseList.InvalidEndKeepsStart | app/purchases/views.py:52-69 | an invalid end date keeps a valid start's filter |
| PurchaseList.UnfilteredListsAllPurchases | app/purchases/views.py:36-72 | without filters, exactly the purchase entries are listed |
| Requests.AllowedLowersRank | app/models/request.py:121-135 | every allowed transition strictly lowers a rank, so the table has no cycle |
| Requests.ChainLength | app/models/request.py:121-137 | any history through the table has at most rank + 1 statuses |
| Requests.TerminalStatesAreFinal | app/models/request.py:121-137 | nothing leaves rejected or collected |
| Requests.CollectedOnlyAfterApproval | app/models/request.py:121-135 | a pending request reaches collected only through approved or partially approved, and then stops |
| Requests.WithStatus | app/models/request.py:139-144 | only the status, and a given message or approver, change |
| Requests.UpdateStatus | app/models/request.py:119-149 | a move the table forbids is refused with nothing changed; an allowed one is committed |
| Requests.UpdateStatusBasedOnItems | app/models/request.py:151-158 | when the items include both an approved and a rejected one, the status becomes partially approved and is committed; otherwise nothing changes |
| Requests.RestoreUndoesSoftDelete | app/models/request.py:161-208 | restoring undoes a soft deletion of a request that was not deleted |
| Requests.SoftDelete | app/models/request.py:161-171 | the deletion time, user and reason are recorded and committed |
| Requests.Restore | app/models/request.py:198-208 | the three deletion fields are cleared and committed |
| Requests.PermanentDelete | app/models/request.py:184-195 | refused unless soft-deleted; fails and rolls back when an issue entry refers to the request; otherwise removes it with its items, keeping the invariants |
| Requests.GetAllRequests | app/models/request.py:100-107 | every request not soft-deleted, as often as the table scan meets it, and nothing else, newest created first |
| Requests.GetUserRequests | app/models/request.py:89-97 | the user's requests not soft-deleted, as often as the scan meets them, and nothing else, newest created first |
| Requests.GetDeletedRequests | app/models/request.py:175-182 | every soft-deleted request, as often as the scan meets it, and nothing else, most recently deleted first |
| Requests.ListingsPartition | app/models/request.py:175-182 | over a scan of the table, the normal and the deleted listing together hold each request exactly as often as the scan does |
| Requests.RequestByIdListed | app/models/request.py:110-117 | get_request_by_id finds a request exactly when get_all_requests lists it |
| Requests.QueriesPartitionRequests | app/models/request.py:100-117 | the normal and the deleted listings partition the requests |
| Requests.SoftDeleteMovesBetweenQueries | app/models/request.py:161-182 | a soft-deleted request leaves the normal listings and appears among the deleted ones |
| Requests.ItemDecisions | app/models/request.py:312-348 | a new item is pending with approved = requested; approve sets any quantity unbounded by the request; reject zeroes it; each decision overrides the other |
| Requests.ProcessCollection | app/models/request.py:350-365 | fails, leaving the stock, exactly when the stock is below the approved quantity; otherwise the stock drops by exactly that and stays non-negative |
| Requests.CreateRequestItem | app/models/request.py:320-334 | an unknown item is refused by the foreign key and rolled back; otherwise one pending item is appended and committed |
| Requests.Approve | app/models/request.py:211-230 | if any item's stock is short, nothing changes; otherwise the request and all its items become approved in one commit |
| Requests.Drained | app/models/request.py:238-253 | a successful collection loop touches only stock and ledger |
| Requests.DrainedFailureExtends | app/models/request.py:238-253 | a failure stays a failure when more items follow |
| Requests.MarkCollected | app/models/request.py:233-266 | refused unless approved or partially approved; rolls back everything if any item is short; otherwise issues and closes in one commit |
| Requests.DrainedEffect | app/models/request.py:238-253 | a collection appends exactly one issue entry of −approved per approved item, in order, and takes exactly their demand from each stock |
| Requests.DrainedKeepsStockNonNegative | app/models/request.py:238-253 | a collection never drives a stock below zero |
| Requests.DrainedConsistent | app/models/request.py:238-253 | a collection keeps the ledger invariant |
| Requests.DrainedIntegrity | app/models/request.py:238-253 | a collection keeps the foreign keys |
| Requests.NothingApprovedNothingIssued | app/models/request.py:238-253 | items with nothing approved are not issued |
| Requests.CollectedOnce | app/models/request.py:236-237 | after a collection, a second one is refused, and even its loop would issue nothing |
| Requests.ClosedKeepsInvariants | app/models/request.py:233-266 | the state after a collection keeps ledger consistency and the foreign keys |
| RequestViews.StockBadgesAgree | app/request/views.py:10-26 | the two helpers agree on every quantity: out of stock exactly at 0, low below 15 otherwise, in stock from 15 |
| RequestViews.FilledPositions | app/request/views.py:50-51 | exactly the positions whose id and quantity are both non-empty, in increasing order |
| RequestViews.FormRows | app/request/views.py:46-55 | the rows are the filled positions in order, each paired with its quantity; a non-empty id without a quantity field gives no rows, and the view then rolls back and shows the form again |
| RequestViews.LineCheck | app/request/views.py:112-144 | accepted exactly when the id parses to an existing item and the quantity parses to at most its stock |
| RequestViews.Checked | app/request/views.py:112-170 | the accepted prefix before the first refusal, and that refusal |
| RequestViews.CheckedPrefix | app/request/views.py:112-170 | checking one row at a time reaches the same prefix and refusal |
| RequestViews.FiledSnoc | app/request/views.py:158-170 | filing one more line appends one item under the next id |
| RequestViews.FiledKeepsInvariants | app/request/views.py:91-172 | filing a request keeps the foreign keys and the ledger invariant |
| RequestViews.RefusedRequestPersists | app/request/views.py:91-155 | as written, a refused line leaves the request stored with fewer lines than submitted |
| RequestViews.ItemRowsStep | app/models/request.py:320-334 | one accepted row is stored under the next id and committed |
| RequestViews.FileRows | app/request/views.py:112-170 | the stored state is the filing of the accepted prefix, and the refusal is the first refused row |
| RequestViews.CreateRequest | app/request/views.py:31-188 | missing fields and an unknown directorate are refused with nothing changed; otherwise the request and its accepted rows are committed, even when a later row is refused |
| RequestViews.CreateRequestAtomic | app/request/views.py:31-188 | corrected: any refusal leaves the store unchanged; an accepted form stores the request with all its rows in one commit, keeping the invariants |
| RequestViews.Decide | app/request/views.py:289-307 | "approved" succeeds exactly when the quantity parses and the stock covers it, and then approves that quantity; "rejected" always rejects the item; any other or missing status leaves it pending |
| RequestViews.Review | app/request/views.py:289-307 | each item is decided in order; or the first refusal |
| RequestViews.ReviewItems | app/request/views.py:289-307 | the loop over the request's items yields exactly the review: every new item and verdict in order, or the first refusal |
| RequestViews.Aggregate | app/request/views.py:310-326 | undecided exactly when some item is; approved exactly when all are approved; rejected when all are rejected (and there is one); partial for a mix |
| RequestViews.UpdateRequestStatus | app/request/views.py:269-337 | as written: a stock refusal returns without commit; other errors roll back; otherwise the items, the decided status and approver, and the message are committed, whatever the previous status |
| RequestViews.ReviewFailureExtends | app/request/views.py:289-307 | a refusal stays the same refusal when more items follow |
| RequestViews.DecidedStatusesLeavePending | app/request/views.py:310-326 | every decided status is one the table allows from pending |
| RequestViews.CollectedTablesConsistent | app/request/views.py:269-337 | the example database of the reopened-request finding is consistent |
| RequestViews.ReviewApprovesAgain | app/request/views.py:289-307 | the review approves the collected item again |
| RequestViews.CollectingAgainIssuesAgain | app/models/request.py:233-266 | the reopened request is collectable, and collecting it issues the stock again: the item drops from 5 to 3 |
| RequestViews.ReviewReopensCollectedRequest | app/request/views.py:310-320 | as written, the review of a collected request approves its item and decides the status approved, a move the table forbids |
| RequestViews.UpdateRequestStatusGuarded | app/request/views.py:269-337 | corrected: only a pending request is reviewed, so every decided status is an allowed move |
| RequestViews.DeleteRefusal | app/request/views.py:383-393 | allowed exactly for an admin on a request that is not collected, or a non-admin on their own pending request |
| RequestViews.DeletionRules | app/request/views.py:383-393 | nobody deletes a collected request, and a non-admin deletes only their own pending one |
| RequestViews.DeleteRequest | app/request/views.py:376-411 | a missing or already deleted request is reported missing before permissions; a permitted one is soft-deleted |
| RequestViews.RestoreRequest | app/request/views.py:415-438 | an admin restores any existing request |
| RequestViews.PermanentDeleteRequest | app/request/views.py:442-458 | admin only; the request must exist and be soft-deleted, with no issue entry referring to it |
| RequestViews.DeleteAllDeletedRequests | app/request/views.py:478-495 | removes exactly the removable requests, and reports their number |
| ReportWindow.MonthEndIsLastDay | app/report/views.py:97-98 | the 28th + 4 days − day trick lands on the last day of the same month |
| ReportWindow.MonthEndOverflow | app/report/views.py:97 | December 9999 overflows |
| ReportWindow.DeriveWindow | app/report/views.py:88-128 | parse errors pass through; a start after now is refused; an end after now is clamped to now; so the window never exceeds now |
| ReportWindow.FirstOfMonth | app/report/views.py:95 | the parsed "-01" date is the 1st |
| ReportWindow.MonthlyWindow | app/report/views.py:91-98 | monthly: from 00:00 of the 1st to 00:00 of the last day of the same month |
| ReportWindow.MonthlyWindowEndsAtMidnight | app/report/views.py:98 | a transaction later on the last day of the month is outside the window |
| ReportWindow.WeeklyWindow | app/report/views.py:99-107 | two "to"-free halves around one "to" give midnight of each parsed stripped date |
| ReportWindow.WeeklyRawSplits | app/report/views.py:103 | the weekly window is the window of the split halves |
| ReportWindow.WeekFromTwo | app/report/views.py:104-107 | exactly two parts are parsed as start and end |
| ReportWindow.WeeklyWindowShape | app/report/views.py:101-105 | an accepted range is exactly two "to"-free halves around one "to" |
| ReportWindow.DailyWindow | app/report/views.py:108-118 | daily: 06:00 to 19:00 of the same day, thirteen hours |
| Calendar.SkipWeekends | app/report/views.py:480-495 | increasing dates within the range, all Monday to Friday |
| Calendar.SkipWeekendsComplete | app/report/views.py:492-495 | every weekday of the range is produced |
| Calendar.ParseIsoFormat | app/purchases/views.py:55 | the parser reads back every date a date input writes |
| Report.ParseFilters | app/report/views.py:82-86 | a server error exactly when a given id is not an integer; otherwise each filter is set exactly when given |
| Report.Candidates | app/report/views.py:503-507 | exactly the items created by the end whose category exists and that pass the category and item filters, in row order, without repeats |
| Report.TallySnoc | app/report/views.py:543-565 | the routing table: before the start, into opening; inside the window by type, and issues by request location (HQ, Jabi, otherwise nowhere); after the end, nowhere; other items untouched |
| Report.ClosingIsBalance | app/report/views.py:543-576 | when every entry of the item is counted, its closing stock is its ledger balance |
| Report.ClosingMatchesStock | app/report/views.py:543-576 | on a consistent database, with no late entries and every in-window issue at HQ or Jabi, the closing stock is the item's quantity |
| Report.OrphanIssueUncounted | app/report/views.py:561-565 | an in-window issue whose request is missing or elsewhere leaves every counter unchanged, while the balance moves by its quantity |
| Report.RowOf | app/report/views.py:529-576 | closing = opening + purchases + adjustments + HQ + Jabi, and value = closing × unit price |
| Report.RowsIn | app/report/views.py:578-583 | only rows of the given category |
| Report.RowsInSplits | app/report/views.py:578-583 | a category's rows stay in their order |
| Report.GroupIsPartition | app/report/views.py:578-583 | a group exists exactly for the category names that occur, and holds exactly that category's rows in order, so each row is in one group |
| Report.GroupTotalsAreSums | app/report/views.py:578-587 | each category total is the sum of its group's rows |
| Report.CategoryOrderKeys | app/report/views.py:579-581 | the key order lists each category once |
| Report.SumOverAdd | app/report/views.py:585-589 | adding a row to its category's total adds it to the sum over categories |
| Report.GrandIsSumOfCategories | app/report/views.py:570-589 | the grand totals equal the sum of the category totals |
| Report.GrandOverEveryCategory | app/report/views.py:570-589 | the grand totals are the sum over a list holding each category once |
| Report.ZeroCounters | app/report/views.py:527-540 | zeroed counters for exactly the candidates |
| Report.ReplayLedger | app/report/views.py:543-565 | each candidate's counters are the tally of the whole ledger |
| Report.AccumulateSnoc | app/report/views.py:578-589 | one more row extends its group, its category totals and the grand totals |
| Report.GroupRows | app/report/views.py:567-591 | the three outputs are the grouping, category totals and grand totals of the rows |
| Report.GenerateReport | app/report/views.py:497-591 | the method computes exactly the report function |
| Report.ReportOutcomes | app/report/views.py:509-517 | over 5000 candidates aborts rather than truncating; empty results exactly when there are none; otherwise each candidate's row is listed in its category |
| Report.FilledReport | app/report/views.py:570-591 | every listed row balances and sits in its own category; the category totals cover exactly the groups and are their sums; the grand totals are the sum of the category totals, each category counted once |
| Report.CandidatesIgnoreLocation | app/report/views.py:503-507 | changing the location filter changes no candidate |
| Report.LocationIsIgnored | app/report/views.py:503-507 | the location filter has no effect on the report |
| Report.FirstInitial | app/report/views.py:385-391 | the quantity of the item's first initial entry, present exactly when it has one |
| Report.GetOpeningStock | app/report/views.py:362-404 | a missing item gives 0; one created after the end, None; one created inside the window, its initial quantity (or 0); otherwise the net before the start |
| Report.BalanceBeforeIsBalance | app/report/views.py:394-404 | with no entry at or after the start, the opening stock is the whole balance |
| Report.ReportOpeningAgrees | app/report/views.py:548-556 | the report's opening stock equals get_opening_stock's sum when no initial entry lies inside the window |
| ReportCache.DumpIsPlain | app/models/report_cache.py:8-12 | nothing the encoder writes holds a Decimal |
| ReportCache.DumpKeepsPlain | app/models/report_cache.py:8-12 | a value without Decimals is written as it is |
| ReportCache.DumpKeepsShape | app/models/report_cache.py:8-12 | keys and lengths are kept, and a Decimal becomes its string |
| ReportCache.SetThenGet | app/models/report_cache.py:36-66 | reading back gives the value with Decimals as strings; a Decimal-free value comes back unchanged; a second round trip changes nothing |
| ReportCache.NewEntryLivesADay | app/models/report_cache.py:24-27 | a new entry survives every cleanup up to 24 hours after it was made and is deleted by the first one after, wherever it sits in the table |
| ReportCache.FilledEntryReadsBack | app/report/views.py:157-161 | the viewer reads back from the new entry each payload it stored, with Decimals as strings and nothing else changed |
| ReportCache.Unexpired | app/models/report_cache.py:79-81 | the cleanup keeps an entry exactly when it has not expired |
| ReportCache.UnexpiredCounts | app/models/report_cache.py:79-81 | each unexpired entry is kept as often as the table holds it |
| ReportCache.UnexpiredSplits | app/models/report_cache.py:79-81 | the kept entries stay in table order |
| ReportCache.ExpiredCount | app/models/report_cache.py:79-81 | the deletions plus the kept entries make up the table |
| ReportCache.CleanupIdempotent | app/models/report_cache.py:79-81 | a second cleanup at the same instant deletes nothing |
| ReportCache.FirstOwned | app/models/report_cache.py:101 | some entry exactly when one matches both id and owner, and such an entry is returned |
| ReportCache.CacheTable.Add | app/models/report_cache.py:24 | a duplicate id is refused with nothing changed; otherwise the entry is appended |
| ReportCache.CacheTable.GetForUser | app/models/report_cache.py:87-101 | an entry only when both id and owner match, and none otherwise |
| ReportCache.CacheTable.CleanupExpired | app/models/report_cache.py:68-85 | deletes exactly the entries with expiry before now, keeps the rest in order, and returns the number deleted |

## Left out

- Flask plumbing is not modelled: routing, templates, flash messages, redirects, login and admin decorators, and form parsing. Its inputs are parameters.
- The spreadsheet export, `search_inventory`, authentication, the scheduler, the management commands and the React frontend are not part of this model. They are I/O, foreign libraries or UI.
- `get_purchases`, `get_issues`, `get_unit_price` and `get_description` in the report views are not modelled. `generate_report` does not call them.
- `generate_report_include_weekends` is a one-line wrapper around `generate_report`, so it is not modelled separately.
- `delete_purchase` and `purchase_detail` are not modelled: they are not part of the inventory core.
- The inventory getters (`get_all_inventory` and the like), `to_dict` and `__repr__` are not modelled: they hold no logic.
- The cache entry the report view creates is `ReportCache.FilledEntry`. The view's rendering and redirects are left out.
- `updated_at`, `updated_by` and the note texts are audit fields that no property reads, so they are not modelled.
- Floating point is not modelled. `float(...)` prices and the `Float` supplier price are exact integers.
- A blank purchase price converts to 0 and is passed to the supplier upsert. It sets an existing record's price to 0; the model keeps this behaviour.
- Base.ParseInt: accepts ASCII digits with an optional sign and surrounding whitespace. It does not accept Python's underscores or non-ASCII digits.
- Calendar.ParseDate: the `%Y`, `%m` and `%d` fields accept ASCII digits only. Python's strptime also accepts other Unicode decimal digits there.
- ILIKE is modelled as ASCII case folding without wildcards.
- Row orders are parameters or abstractions:
  - The database's order of item rows is a parameter (`Report.RowOrder`).
  - The order of the report's transaction query is taken as ledger order.
  - Dictionary key order is `Report.CategoryOrder`.
  - The database's scan order of the request table is a parameter of the request listings.
- ReportCache.Dump: the JSON text (`ensure_ascii`, spacing, number formatting) is abstracted. A column holds the document tree that would be written.
- The random uuid and the clock are parameters.
- ReportCache.CacheTable.CleanupExpired: the exception and rollback path of the bulk delete is not modelled.
- ReportCache.CacheTable.GetForUser: does not check expiry, like the source. An expired entry not yet cleaned up is returned.
- RequestViews.UpdateRequestStatus: on an InsufficientQuantity refusal, the item edits made before it are not staged in the session. This is safe because nothing is committed and the teardown discards them.
- Requests.Approve: `Request.approve` calls `db.session.begin()` inside an active session. The model treats it as the plain check-then-commit its code intends.
- Requests.GetAllRequests, Requests.GetUserRequests, Requests.GetDeletedRequests: requests with equal timestamps come out in an order the model fixes; SQL leaves it open. The eager loading of items and inventory is not modelled.
- Request.update_status, update_status_based_on_items, Request.approve, get_opening_stock and daterange_skip_weekends are never called by the application. They are modelled as written all the same.
- The monthly window ends at 00:00 of the month's last day, as the source computes it. `ReportWindow.MonthlyWindowEndsAtMidnight` shows that the rest of that day is outside the window.
- A weekly range whose start is after its end is accepted. Entries are then routed by the "before start" rule.
- `create_inventory` does not check the quantity, so a negative starting stock is possible. Non-negative stock is therefore proved per operation (adjustment, collection), not as an invariant of the whole database.

## Findings

| source | as written | input that shows it | evidently intended | confidence | as-written member | corrected member |
|---|---|---|---|---|---|---|
| app/request/views.py:91-172 | the request is committed before its rows are checked, and each row commits on its own; a refused row rolls back only what is uncommitted | a form whose second row asks for more than the stock: the request stays stored with only its first row | a refused row leaves no request behind: every refusal calls rollback and shows the form again as if nothing was filed | high, not executed | RequestViews.RefusedRequestPersists | RequestViews.CreateRequestAtomic |
| app/request/views.py:310-320 | the review sets the status directly, whatever the current status | approving the item of a collected request again (`ReviewReopensCollectedRequest`): it becomes approved, and a second collection takes its stock twice (`CollectingAgainIssuesAgain`) | reviews obey the transition table of app/models/request.py:121-137 | high, not executed | RequestViews.ReviewReopensCollectedRequest | RequestViews.UpdateRequestStatusGuarded |
| app/purchases/views.py:101-121 | the supplier upsert commits mid-loop; a later invalid line redirects after the commit | lines (item 2, 5, "Acme"), (item 7, 1) on an empty shelf: the stock of item 2 is 5 but it has no ledger entry | a purchase is all or nothing and keeps quantity = ledger balance | high, not executed | Purchases.InterruptedPurchaseBreaksLedger | Purchases.NewPurchaseAtomic |
| app/models/inventory_supplier.py:50-52 | a failing supplier write rolls back the session (including the line's stock increase), then the view still adds and commits the purchase entry | one line (item 2, 5, "Acme") whose supplier write fails: stock 0, balance 5 | the entry and the stock move together | medium, not executed | Purchases.FailedSupplierWriteBreaksLedger | Purchases.NewPurchaseAtomic |
| app/models/inventory_transaction.py:17 | `default=datetime.now(UTC)` is evaluated once at import, so purchase entries are stamped with the start-up instant | any purchase made after start-up: its entries carry the import time, so reports place them in the wrong window | each entry is stamped with the time of the purchase | high, not executed | Purchases.AsWrittenPurchaseStampedAtImport | Purchases.AtomicPurchaseStampedNow |
