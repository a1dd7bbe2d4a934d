# Inventory stock movements, modelled in Dafny

This project models the domain core of an inventory-tracking backend written
in Kotlin (Ktor, Exposed, PostgreSQL). The backend keeps **parts**, each with
a current stock, and **transactions**: stock movements of kind IN, OUT or
ADJUSTMENT against one part. The model covers how a movement changes a
part's stock, the checks run before a movement is accepted, part creation
with its seeded "Initial stock" movement, partial part updates, setting the
stock directly, payment updates, deletes, and the filtered, paginated part
search with its page count.

Files and modules:

- `kotlin_int.dfy`, module `KotlinInt`: Kotlin's 32-bit `Int`. Addition,
  subtraction and multiplication wrap around. Division truncates toward zero.
- `models.dfy`, module `Models`: the records of the `parts` and
  `transactions` tables, the request types, and the error cases. Money is a
  whole number of cents. Timestamps are ticks.
- `stock.dfy`, module `StockMovement`: the effect of one movement on the
  stock, and the ledger reading of a run of movements.
- `repository.dfy`, module `Repository`: class `Store`, the database seen by
  `PartRepositoryImpl` and `TransactionRepositoryImpl`, plus the search
  conditions and paging.
- `services.dfy`, module `Services`: the guards of
  `TransactionServiceImpl.createTransaction`, and `PartServiceImpl.searchParts`.

How the model reads the code:

- Every repository method runs inside `dbQuery`, which is one database
  transaction. So each `Store` method either completes, or fails and leaves
  the tables unchanged. Every failure branch states `unchanged(this)`. The
  id counters are part of that state, which PostgreSQL sequences are not
  (see "Left out").
- The model returns an error value wherever the Kotlin code throws or the
  database refuses a write. The errors are a missing part, insufficient
  stock, an amount too large for a `decimal(10, 2)` column, a duplicate part
  number, a foreign-key violation, a negative `LIMIT`, and division
  by zero.
- The unique index on `part_number` and the foreign keys are PostgreSQL's
  checks, not the Kotlin code's. `Store.Valid()` keeps them as invariants.
  The write the database would refuse is reported as an error.
- The column defaults `default(Clock.System.now()…)` in
  `src/main/kotlin/database/Tables.kt` are evaluated once, when the table
  object is initialised. So every row gets the same `createdAt` and
  `transactionDate`: the constant `Store.tableDefault`. Every call to
  `Clock.System.now()` advances `Store.clock` by one tick, and that tick
  becomes the part's `updatedAt`.
- `TransactionRepositoryImpl.create` does not copy the request's `notes`,
  so a new transaction's `notes` is always `None`.
- Three behaviours of the code are easy to misread. The model follows the
  code:
  - The stock can go negative. An IN that overflows `Int` wraps around, and
    `updateStock` sets any value.
  - `totalAmount` is always set. A part's unit price is never null, so a
    price is always available.
  - The "running total" invariant holds only for runs with no negative
    quantity, no uncovered OUT and no overflowing IN. `StockMovement.ReplayIsBalance` states
    exactly this.

## Model

| member | source | states |
|---|---|---|
| `StockMovement.StockAfter` | src/main/kotlin/repository/Repository.kt:215-226 | an IN leaves a stock congruent to old + quantity modulo 2^32; an OUT leaves a stock that is never negative and is either 0 or congruent to old - quantity, and exactly old - quantity when that is between 0 and `Int.MAX_VALUE`; an ADJUSTMENT leaves the quantity |
| `StockMovement.InAddsQuantity` | src/main/kotlin/repository/Repository.kt:216-218 | when nothing overflows, an IN leaves the stock at the old stock plus the quantity |
| `StockMovement.InOverflowWraps` | src/main/kotlin/repository/Repository.kt:217 | an IN that passes `Int.MAX_VALUE` wraps the stock around to a negative value |
| `StockMovement.OutNeverNegative` | src/main/kotlin/repository/Repository.kt:219-222 | an OUT never leaves a negative stock; without overflow it leaves `max(0, old - quantity)` |
| `StockMovement.AdjustmentSetsStock` | src/main/kotlin/repository/Repository.kt:223-225 | an ADJUSTMENT sets the stock to the quantity, whatever it was |
| `StockMovement.ReplayIsBalance` | src/main/kotlin/repository/Repository.kt:215-226 | for any run with no negative quantity, no uncovered OUT and no overflowing IN, the stock after the run equals the last ADJUSTMENT (or the opening stock) plus the later IN quantities minus the later OUT quantities, and it is never negative |
| `Repository.NewTransaction` | src/main/kotlin/repository/Repository.kt:199-212 | the recorded unit price is the request's price if given, otherwise the part's; `totalAmount` is unit price × quantity; type, quantity and part are the request's; `notes` is not copied |
| `Repository.Store.CreateTransaction` | src/main/kotlin/repository/Repository.kt:196-230 | unknown part: `PartNotFound` and nothing changes. Amount too large for its column: `NumericOverflow` and nothing changes. Otherwise exactly one new row is added under a fresh id, only that part changes, its stock becomes `StockAfter` of the movement, and its `updatedAt` becomes a new tick |
| `Repository.InitialStockEntry` | src/main/kotlin/repository/Repository.kt:133-145 | the seeded movement is an IN of the initial stock, with reason "Initial stock", paid, and unit price, total and amount paid taken from the request |
| `Repository.NewPart` | src/main/kotlin/repository/Repository.kt:120-131 | the new row has the given id, copies every request field, starts with `currentStock = initialStock`, and takes the column default as both timestamps |
| `Repository.Store.CreatePart` | src/main/kotlin/repository/Repository.kt:119-148 | a request whose price fits, whose category exists, whose part number is free, and whose seeded total fits (when `initialStock > 0`) succeeds. The new part's stock is `initialStock`, under a fresh id. Exactly one "Initial stock" movement is added when `initialStock > 0`, none otherwise. Each refusal is stated: price too large, unknown category, part number taken, seeded total too large. Every refusal leaves the store unchanged |
| `Repository.ApplyUpdate` | src/main/kotlin/repository/Repository.kt:151-160 | each of the seven updatable fields (name, description, unit price, minimum stock, maximum stock, location, supplier) takes the request's value when supplied and keeps the old one otherwise; id, part number, category, current stock and creation time never change, and `updatedAt` becomes the new tick |
| `Repository.EmptyUpdateKeepsPart` | src/main/kotlin/repository/Repository.kt:151-160 | an update with no fields supplied changes only `updatedAt` |
| `Repository.UpdateIdempotent` | src/main/kotlin/repository/Repository.kt:151-160 | applying the same update twice equals applying it once |
| `Repository.Store.UpdatePart` | src/main/kotlin/repository/Repository.kt:150-161 | unknown id: `None` and nothing changes. Otherwise only that part changes, to `ApplyUpdate` of it, and transactions and counters stay as they were |
| `Repository.Store.DeletePart` | src/main/kotlin/repository/Repository.kt:163-165 | unknown id: `false` and nothing changes. A part that still has movements is refused by the foreign key, and nothing changes. Otherwise only that part is removed; transactions, both id counters and the clock stay as they were |
| `Repository.Store.UpdateStock` | src/main/kotlin/repository/Repository.kt:167-173 | returns true exactly when the part exists. A missing id changes nothing. Otherwise only that part's stock and `updatedAt` change |
| `Repository.EmptyTextMatchesAll` | src/main/kotlin/repository/Repository.kt:91-97 | `like "%%"`: an empty search text matches every part |
| `Repository.OwnPartNumberMatches` | src/main/kotlin/repository/Repository.kt:91-97 | a search for a part's own part number finds that part |
| `Repository.LowStockFalseIsNoFilter` | src/main/kotlin/repository/Repository.kt:103-107 | `lowStock = false` adds no condition: it matches what an absent flag matches |
| `Repository.FiltersNarrow` | src/main/kotlin/repository/Repository.kt:91-107 | each supplied filter only narrows the selection: dropping the text, category or low-stock filter keeps every part that matched |
| `Repository.HoldsAllSnoc` | src/main/kotlin/repository/Repository.kt:99-107 | adding a condition with `andWhere` conjoins it with the conditions already in the query |
| `Repository.ScanMembers` | src/main/kotlin/repository/Repository.kt:109-114 | a selection holds exactly the stored rows that satisfy the condition, each stored under its own id |
| `Repository.ScanAscending` | src/main/kotlin/repository/Repository.kt:112-114 | a selection lists rows in strictly ascending id order, so no row appears twice |
| `Repository.ScanCount` | src/main/kotlin/repository/Repository.kt:109 | the length of a selection is the number of rows satisfying the condition |
| `Repository.ScanExt` | src/main/kotlin/repository/Repository.kt:89-107 | two conditions that agree on every part select the same rows |
| `Repository.Window` | src/main/kotlin/repository/Repository.kt:113 | `limit(limit, offset)` returns at most `limit` consecutive rows starting at row `offset`, and is empty past the end |
| `Repository.OffsetAsWritten` | src/main/kotlin/repository/Repository.kt:110 | as written, the offset is `(page - 1) * limit` reduced modulo 2^32 into `Int`, and equals the true product whenever that fits an `Int` |
| `Repository.OffsetAsWrittenWraps` | src/main/kotlin/repository/Repository.kt:110 | as written, page 1073741825 with limit 4 gets offset 0, the same offset as page 1 |
| `Repository.Offset` | src/main/kotlin/repository/Repository.kt:110 | the offset taken in `Long` always fits a `Long`, and is not negative for page ≥ 1 |
| `Repository.ReadFrom` | src/main/kotlin/repository/Repository.kt:110-114 | the row the page is read from: the offset when it is not negative, row 0 otherwise, because `limit(n, offset)` emits an `OFFSET` clause only for a positive offset; so every page ≤ 1 reads from row 0 |
| `Repository.OffsetTilesPages` | src/main/kotlin/repository/Repository.kt:110 | page 1 starts at row 0, and each next page starts exactly `limit` rows later |
| `Repository.Store.Search` | src/main/kotlin/repository/Repository.kt:88-117 | with the corrected offset, it fails exactly when the limit is negative, which PostgreSQL refuses. Otherwise it returns at most `limit` parts, each stored and matching every supplied filter, taken from row `ReadFrom(page, limit)` of all matches in id order: offset `(page-1)*limit` for page ≥ 1, the first row for page ≤ 0. The count is the number of all matching parts, regardless of paging |
| `Repository.Store.FindLowStockParts` | src/main/kotlin/repository/Repository.kt:175-177 | returns exactly the stored parts with `currentStock <= minimumStock`, each once (in ascending id order, an order the model fixes) |
| `Repository.LowStockSearchAgrees` | src/main/kotlin/repository/Repository.kt:175-177 | a search for low-stock parts only, on page 1 with a large enough limit, returns what `findLowStockParts` returns |
| `Repository.Store.UpdatePayment` | src/main/kotlin/repository/Repository.kt:232-237 | unknown id: `None` and nothing changes. Otherwise only that transaction's `amountPaid` and `isPaid` change |
| `Repository.Store.DeleteTransaction` | src/main/kotlin/repository/Repository.kt:239-241 | returns whether the row existed, removes it, and leaves every part, and so every stock, as it was |
| `Repository.Store.constructor` | src/main/kotlin/database/Tables.kt:21-49 | an empty store satisfies the table invariants; rows created later take the single default instant |
| `Services.Guard` | src/main/kotlin/services/Services.kt:101-111 | a request goes through exactly when the part exists and, for an OUT, the quantity is at most the current stock. An unknown part gives `PartWithIdNotFound(id)`. An uncovered OUT gives `InsufficientStock(available, requested)`. IN and ADJUSTMENT are never refused for stock |
| `Services.CreateTransaction` | src/main/kotlin/services/Services.kt:100-114 | a refused request writes nothing. An accepted one inserts exactly one row under the next transaction id, changes only that part's stock, to `StockAfter` of the movement, advances the clock by one tick and the transaction counter by one, and leaves the part counter as it was. An accepted OUT of a non-negative quantity leaves exactly `old - quantity`, so an OUT equal to the stock leaves 0 |
| `Services.AcceptedOutIsExact` | src/main/kotlin/services/Services.kt:106-113 | for an OUT the guard accepts with a non-negative quantity, the repository's floor at 0 is never reached; an OUT of the whole stock leaves 0 |
| `Services.NegativeOutCanHitFloor` | src/main/kotlin/repository/Repository.kt:219-222 | the floor is reachable only through unvalidated input: an OUT of -1 from a stock of `Int.MAX_VALUE` wraps and is floored to 0 |
| `Services.TotalPagesAsWritten` | src/main/kotlin/services/Services.kt:56 | as written, whenever `total + limit - 1` fits an `Int`, the count is the least number of pages of `limit` rows that hold `total` rows |
| `Services.TotalPagesAsWrittenOverflows` | src/main/kotlin/services/Services.kt:56 | as written, 2 matches with limit `Int.MAX_VALUE` give -1 pages |
| `Services.TotalPages` | src/main/kotlin/services/Services.kt:56 | the page count is `ceil(total / limit)`: the least page count whose pages hold all `total` rows |
| `Services.TotalPagesAgree` | src/main/kotlin/services/Services.kt:56 | whenever `total + limit - 1` fits an `Int`, the code as written gives the same count |
| `Services.PageNonEmptyUpToTotalPages` | src/main/kotlin/services/Services.kt:54-64 | a page is non-empty exactly when its number is at most the page count |
| `Services.SearchParts` | src/main/kotlin/services/Services.kt:54-65 | with the corrected offset and page count, it succeeds exactly when `limit > 0`. A zero limit fails with `DivisionByZero`, a negative one is refused by the database. A page of 0 or less is answered with the first page, and its number is echoed back as given. For page ≥ 1 the page is non-empty exactly when page ≤ `totalPages`. The response echoes the request's page and limit, carries the repository's count and page unchanged, and sets `totalPages = ceil(total / limit)` |
| `Services.SecondPageOfFortyFive` | src/main/kotlin/services/Services.kt:56 | page 2 of 20 over 45 matches holds 20 parts, and there are 3 pages |

## Findings

| source | as written | input that shows it | evidently intended | confidence | as-written member | corrected member |
|---|---|---|---|---|---|---|
| src/main/kotlin/services/Services.kt:56 | `(total + request.limit - 1) / request.limit` computed in `Int` | total 2, limit 2147483647: the sum overflows and the response says -1 pages | `ceil(total / limit)`, here 1 | not executed; high (JVM `Int` arithmetic is fixed) | `Services.TotalPagesAsWrittenOverflows` | `Services.TotalPages` |
| src/main/kotlin/repository/Repository.kt:110 | `((request.page - 1) * request.limit).toLong()` multiplies in `Int` before widening | page 1073741825, limit 4: the product wraps to 0, so that page shows the first 4 matches again | offset 4294967296, an empty page | not executed; high (JVM `Int` arithmetic is fixed) | `Repository.OffsetAsWrittenWraps` | `Repository.Offset` |

The rest of the model uses the corrected members: `Store.Search` takes its
offset from `Repository.Offset` (through `Repository.ReadFrom`), and `Services.SearchParts` takes its page
count from `Services.TotalPages`.

## Left out

- HTTP routing, request parsing and status-code mapping: framework glue around the service calls.
- Conversion of rows to transfer objects (`toDto`): field copying. The model returns the rows themselves.
- Category operations: the `categories` table is a fixed set of ids, `Store.categoryIds`. Only the foreign key from parts to it is modelled.
- The plain reads `findAll`, `findById` and `findByPartId`: they only return stored rows.
- Statistics and the fast-moving ranking: SQL group-by aggregations that produce floating-point values.
- Connection pool, schema creation and dependency injection: configuration and I/O.
- Concurrency: two OUT movements racing on the same part. The code has no locking.
- Floating point: request amounts are `Double`, converted to `decimal(10, 2)`. The model uses exact cents and does not model rounding.
- Wall-clock time: replaced by a tick that only increases.
- Exception messages: an error carries its data (the part id, the available and requested amounts), not the formatted text.
- Repository.Store.Search: `like "%q%"` is modelled as plain substring containment. The `%` and `_` wildcards and the `\` escape character inside the query text are not modelled, so `OwnPartNumberMatches` need not hold in the database for a part number that contains any of them.
- Repository.ReadFrom: the Exposed SQL builder is not part of this model. Its rule, an `OFFSET` clause only for a positive offset, is taken from how `limit(n, offset)` renders for PostgreSQL. As written, a product that wraps to a negative `Int` therefore also reads the first page.
- Repository.Store.Search: without `ORDER BY`, PostgreSQL returns rows in no particular order. The model fixes ascending id order.
- Repository.Store.FindLowStockParts: without `ORDER BY`, PostgreSQL returns rows in no particular order. The model fixes ascending id order.
- Repository.Store.Search: `count().toInt()` would truncate a count of 2^31 or more matches. The model keeps the exact count.
- Repository.Store.CreatePart: when a request breaks several database constraints at once, the database decides which error it reports. The model checks them in a fixed order.
- Repository.Store.CreatePart: PostgreSQL does not roll back a sequence, so a refused insert (part number taken, unknown category, seeded total too large) still uses up a part id, and a transaction id when the seeded insert was attempted. The model keeps `nextPartId` and `nextTransactionId` unchanged on a refusal, so the next part's id may be smaller than the database would give.
- Repository.Store.CreatePart: the `varchar` length limits (name 200, part number 100, location 100, supplier 200) are not modelled. Longer strings would be refused by the database.
- Repository.Store.UpdatePart: the `varchar` length limits are not modelled.
- Repository.Store.CreateTransaction: a refused insert (amount too large) still uses up a transaction id in PostgreSQL. The model keeps `nextTransactionId` unchanged on a refusal.
- Services.CreateTransaction: its exact next-id promise is the repository's, with the same sequence caveat.
- Repository.Store.CreateTransaction: the `varchar` limit on `recipientName` (200) is not modelled.
- Negative quantities: nothing in the code validates the sign of `quantity`. The never-negative result `ReplayIsBalance` assumes non-negative quantities. It is not a claim about the code.
