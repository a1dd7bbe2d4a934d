/** `PartRepositoryImpl` and `TransactionRepositoryImpl` over one store.

    The database becomes a `Store` object: the `parts` and `transactions`
    tables are maps from id to row, the identity sequences are counters,
    and the wall clock is a tick that every `Clock.System.now()` advances.
    Each repository operation runs in its own `dbQuery`, a database
    transaction, so an operation either completes or leaves the store as it
    was; the methods below state exactly that.

    The unique index on `part_number` and the foreign keys are enforced by
    PostgreSQL, not by the Kotlin code: the model keeps them as `Valid()`
    invariants and reports the write the database refuses as an error. */
module Repository {
  import opened KotlinInt
  import opened Models
  import opened StockMovement

  // ---------------------------------------------------------------------
  // Search conditions
  // ---------------------------------------------------------------------

  predicate OccursAt(sub: string, s: string, i: int) {
    0 <= i && i + |sub| <= |s| && s[i..i + |sub|] == sub
  }

  predicate IsSubstring(sub: string, s: string) {
    exists i :: 0 <= i <= |s| - |sub| && OccursAt(sub, s, i)
  }

  /** `like "%q%"` on name, part number or description; a missing
      description never matches. */
  predicate TextMatches(p: Part, q: string) {
    || IsSubstring(q, p.name)
    || IsSubstring(q, p.partNumber)
    || (p.description.Some? && IsSubstring(q, p.description.value))
  }

  /** `currentStock lessEq minimumStock`. */
  predicate IsLowStock(p: Part) {
    p.currentStock <= p.minimumStock
  }

  /** One `where` / `andWhere` condition of the search query. */
  datatype Condition = TextLike(text: string) | CategoryIs(categoryId: int) | LowStock

  predicate Holds(p: Part, c: Condition) {
    match c
    case TextLike(q) => TextMatches(p, q)
    case CategoryIs(id) => p.categoryId == id
    case LowStock => IsLowStock(p)
  }

  /** A query built with `andWhere` holds when each of its conditions does. */
  predicate HoldsAll(p: Part, query: seq<Condition>) {
    forall c <- query :: Holds(p, c)
  }

  lemma HoldsAllSnoc(query: seq<Condition>, c: Condition)
    ensures forall p :: HoldsAll(p, query + [c]) == (HoldsAll(p, query) && Holds(p, c))
  {
    forall p ensures HoldsAll(p, query + [c]) == (HoldsAll(p, query) && Holds(p, c)) {
      assert c in query + [c];
      assert forall d <- query :: d in query + [c];
    }
  }

  /** A part matches a search when every filter the request supplies holds:
      the text, the category, and the low-stock flag when it is `true`. */
  predicate MatchesRequest(p: Part, req: SearchPartsRequest) {
    && (req.query.Some? ==> TextMatches(p, req.query.value))
    && (req.categoryId.Some? ==> p.categoryId == req.categoryId.value)
    && (req.lowStock == Some(true) ==> IsLowStock(p))
  }

  /** `like "%%"`: an empty search text matches every part, through its name. */
  lemma EmptyTextMatchesAll(p: Part)
    ensures TextMatches(p, "")
  {
    assert OccursAt("", p.name, 0);
  }

  /** Searching for a part's own part number finds it. */
  lemma OwnPartNumberMatches(p: Part)
    ensures TextMatches(p, p.partNumber)
  {
    assert OccursAt(p.partNumber, p.partNumber, 0);
  }

  /** `lowStock = false` adds no condition: it selects what an absent flag does. */
  lemma LowStockFalseIsNoFilter(p: Part, req: SearchPartsRequest)
    ensures MatchesRequest(p, req.(lowStock := Some(false))) == MatchesRequest(p, req.(lowStock := None))
  {
  }

  /** Each supplied filter only narrows the selection. */
  lemma FiltersNarrow(p: Part, req: SearchPartsRequest)
    ensures MatchesRequest(p, req) ==> MatchesRequest(p, req.(query := None))
    ensures MatchesRequest(p, req) ==> MatchesRequest(p, req.(categoryId := None))
    ensures MatchesRequest(p, req) ==> MatchesRequest(p, req.(lowStock := None))
  {
  }

  // ---------------------------------------------------------------------
  // Reading a table
  // ---------------------------------------------------------------------

  /** Every row is stored under its own id. */
  ghost predicate KeysMatch(parts: map<int, Part>) {
    forall id | id in parts :: parts[id].id == id
  }

  /** The rows with an id below `n` that satisfy `f`, in ascending id order.
      PostgreSQL promises no order without `ORDER BY`; the model fixes one. */
  function Scan(parts: map<int, Part>, f: Part -> bool, n: nat): seq<Part>
    decreases n
  {
    if n == 0 then []
    else Scan(parts, f, n - 1) + (if n - 1 in parts && f(parts[n - 1]) then [parts[n - 1]] else [])
  }

  ghost function IdsBelow(parts: map<int, Part>, f: Part -> bool, n: nat): set<int> {
    set id | id in parts && 0 <= id < n && f(parts[id])
  }

  /** A scan returns exactly the rows below `n` that satisfy `f`. */
  lemma {:induction false} ScanMembers(parts: map<int, Part>, f: Part -> bool, n: nat)
    requires KeysMatch(parts)
    ensures forall p <- Scan(parts, f, n) :: 0 <= p.id < n && p.id in parts && parts[p.id] == p && f(p)
    ensures forall id | id in parts && 0 <= id < n && f(parts[id]) :: parts[id] in Scan(parts, f, n)
    decreases n
  {
    if n > 0 {
      ScanMembers(parts, f, n - 1);
    }
  }

  predicate Ascending(rows: seq<Part>) {
    forall i, j :: 0 <= i < j < |rows| ==> rows[i].id < rows[j].id
  }

  /** A scan lists rows in strictly ascending id order, so never twice. */
  lemma {:induction false} ScanAscending(parts: map<int, Part>, f: Part -> bool, n: nat)
    requires KeysMatch(parts)
    ensures Ascending(Scan(parts, f, n))
    decreases n
  {
    if n > 0 {
      ScanAscending(parts, f, n - 1);
      ScanMembers(parts, f, n - 1);
      var s, t := Scan(parts, f, n - 1), Scan(parts, f, n);
      forall i, j | 0 <= i < j < |t| ensures t[i].id < t[j].id {
        assert t[i] == s[i] && s[i] in s;
        if j < |s| {
          assert t[j] == s[j];
          assert s[i].id < s[j].id;
        } else {
          assert n - 1 in parts && t[j] == parts[n - 1];
          assert s[i].id < n - 1 == t[j].id;
        }
      }
    }
  }

  /** The length of a scan is the number of rows it selects. */
  lemma {:induction false} ScanCount(parts: map<int, Part>, f: Part -> bool, n: nat)
    ensures |Scan(parts, f, n)| == |IdsBelow(parts, f, n)|
    decreases n
  {
    if n > 0 {
      ScanCount(parts, f, n - 1);
      var k := n - 1;
      if k in parts && f(parts[k]) {
        assert IdsBelow(parts, f, n) == IdsBelow(parts, f, k) + {k};
      } else {
        assert IdsBelow(parts, f, n) == IdsBelow(parts, f, k);
      }
    }
  }

  /** Two conditions that agree on every part select the same rows. */
  lemma {:induction false} ScanExt(parts: map<int, Part>, f: Part -> bool, g: Part -> bool, n: nat)
    requires forall p :: f(p) == g(p)
    ensures Scan(parts, f, n) == Scan(parts, g, n)
    decreases n
  {
    if n > 0 {
      ScanExt(parts, f, g, n - 1);
    }
  }

  /** The parts below id `n` that match the search, in id order. */
  function Matching(parts: map<int, Part>, req: SearchPartsRequest, n: nat): seq<Part> {
    Scan(parts, (p: Part) => MatchesRequest(p, req), n)
  }

  /** The ids of all parts that match the search. */
  ghost function MatchingIds(parts: map<int, Part>, req: SearchPartsRequest): set<int> {
    set id | id in parts && MatchesRequest(parts[id], req)
  }

  // ---------------------------------------------------------------------
  // Paging
  // ---------------------------------------------------------------------

  /** `((request.page - 1) * request.limit).toLong()` exactly as written:
      the product is taken in `Int` and only then widened. */
  function OffsetAsWritten(page: Int32, limit: Int32): (r: Int32)
    ensures MIN_VALUE < page ==> ((page - 1) * limit - r) % MODULUS == 0
    ensures MIN_VALUE < page && InRange((page - 1) * limit) ==> r == Offset(page, limit)
  {
    Mul(Sub(page, 1), limit)
  }

  /** Page 1073741825 of 4 rows wraps to offset 0 and shows page 1 again. */
  lemma OffsetAsWrittenWraps()
    ensures OffsetAsWritten(1_073_741_825, 4) == 0 == OffsetAsWritten(1, 4)
  {
    assert (1_073_741_825 - 1) * 4 == MODULUS;
  }

  /** The offset computed in `Long`, which holds any product of two `Int`s. */
  function Offset(page: Int32, limit: Int32): (r: int)
    ensures -0x8000_0000_0000_0000 <= r < 0x8000_0000_0000_0000
    ensures page >= 1 && limit >= 0 ==> r >= 0
  {
    ProductBound(page as int - 1, limit as int);
    (page as int - 1) * (limit as int)
  }

  /** The row `query.limit(limit, offset)` starts reading at: the SQL gets
      an `OFFSET` clause only for a positive offset, so a page of 0 or less
      reads from the first row. */
  function ReadFrom(page: Int32, limit: Int32): (r: nat)
    ensures Offset(page, limit) >= 0 ==> r == Offset(page, limit)
    ensures Offset(page, limit) < 0 ==> r == 0
    ensures page >= 1 && limit >= 0 ==> r == Offset(page, limit)
    ensures page <= 1 && limit >= 0 ==> r == 0
  {
    var off := Offset(page, limit);
    if off > 0 then off else 0
  }

  lemma ProductBound(a: int, b: int)
    requires -0x8000_0001 <= a <= 0x8000_0001 && -0x8000_0001 <= b <= 0x8000_0001
    ensures -0x4000_0001_0000_0001 <= a * b <= 0x4000_0001_0000_0001
  {
    var x: int, y: int := Abs(a), Abs(b);
    MulMonotone(x, 0x8000_0001, y);
    MulMonotone(y, 0x8000_0001, 0x8000_0001);
    assert a * b == x * y || a * b == -(x * y);
  }

  lemma MulMonotone(x: nat, bound: int, y: nat)
    requires x <= bound
    ensures x * y <= bound * y
  {
    assert bound * y - x * y == (bound - x) * y;
  }

  /** Consecutive pages start `limit` rows apart, beginning at row 0. */
  lemma OffsetTilesPages(page: Int32, limit: Int32)
    requires 1 <= page < MAX_VALUE && 0 <= limit
    ensures Offset(1, limit) == 0
    ensures Offset(page + 1, limit) == Offset(page, limit) + limit
  {
  }

  /** `query.limit(limit, offset)`: at most `limit` rows starting at row
      `offset` of the selection. */
  function Window(rows: seq<Part>, offset: int, limit: int): (r: seq<Part>)
    requires 0 <= offset && 0 <= limit
    ensures |r| <= limit
    ensures |r| == if offset >= |rows| then 0 else Min(limit, |rows| - offset)
    ensures forall i :: 0 <= i < |r| ==> r[i] == rows[offset + i]
  {
    if offset >= |rows| then [] else rows[offset..offset + Min(limit, |rows| - offset)]
  }

  function Min(a: int, b: int): int {
    if a <= b then a else b
  }

  /** What `search` returns: one page of rows and the number of matches. */
  datatype SearchResult = SearchResult(parts: seq<Part>, total: nat)

  // ---------------------------------------------------------------------
  // Rows built by the repository
  // ---------------------------------------------------------------------

  /** `Part.new { … }` in `create`: the stock starts at `initialStock`; the
      timestamps take the column default. */
  function NewPart(id: int, req: AddPartRequest, at: Tick): (p: Part)
    ensures p.id == id && p.currentStock == req.initialStock
    ensures p.createdAt == at == p.updatedAt
    ensures (p.name, p.description, p.partNumber, p.categoryId, p.unitPrice) ==
            (req.name, req.description, req.partNumber, req.categoryId, req.unitPrice)
    ensures (p.minimumStock, p.maxStock, p.location, p.supplier) ==
            (req.minimumStock, req.maxStock, req.location, req.supplier)
  {
    Part(id, req.name, req.description, req.partNumber, req.categoryId, req.unitPrice,
         req.initialStock, req.minimumStock, req.maxStock, req.location, req.supplier, at, at)
  }

  /** The "Initial stock" IN transaction `create` adds for a positive
      `initialStock`. */
  function InitialStockEntry(id: int, part: Part, at: Tick): (t: Transaction)
    ensures t.partId == part.id && t.txType == IN && t.quantity == part.currentStock
    ensures t.reason == Some("Initial stock") && t.isPaid
    ensures t.unitPrice == Some(part.unitPrice)
    ensures t.totalAmount == Some(part.unitPrice * part.currentStock) == Some(t.amountPaid)
  {
    var amount := part.unitPrice * part.currentStock;
    Transaction(id, part.id, IN, part.currentStock, Some(part.unitPrice), Some(amount),
                None, Some("Initial stock"), true, amount, at, None, at)
  }

  /** The `apply { … }` of `update`: each supplied field is overwritten,
      and `updatedAt` is set to `now`. */
  function ApplyUpdate(p: Part, req: UpdatePartRequest, now: Tick): (q: Part)
    ensures q.id == p.id && q.partNumber == p.partNumber && q.categoryId == p.categoryId
    ensures q.currentStock == p.currentStock && q.createdAt == p.createdAt
    ensures q.updatedAt == now
    ensures (req.name.Some? ==> q.name == req.name.value) && (req.name.None? ==> q.name == p.name)
    ensures (req.description.Some? ==> q.description == req.description) &&
            (req.description.None? ==> q.description == p.description)
    ensures (req.unitPrice.Some? ==> q.unitPrice == req.unitPrice.value) &&
            (req.unitPrice.None? ==> q.unitPrice == p.unitPrice)
    ensures (req.minimumStock.Some? ==> q.minimumStock == req.minimumStock.value) &&
            (req.minimumStock.None? ==> q.minimumStock == p.minimumStock)
    ensures (req.maxStock.Some? ==> q.maxStock == req.maxStock) &&
            (req.maxStock.None? ==> q.maxStock == p.maxStock)
    ensures (req.location.Some? ==> q.location == req.location) &&
            (req.location.None? ==> q.location == p.location)
    ensures (req.supplier.Some? ==> q.supplier == req.supplier) &&
            (req.supplier.None? ==> q.supplier == p.supplier)
  {
    p.(name := req.name.GetOr(p.name),
       description := if req.description.Some? then req.description else p.description,
       unitPrice := req.unitPrice.GetOr(p.unitPrice),
       minimumStock := req.minimumStock.GetOr(p.minimumStock),
       maxStock := if req.maxStock.Some? then req.maxStock else p.maxStock,
       location := if req.location.Some? then req.location else p.location,
       supplier := if req.supplier.Some? then req.supplier else p.supplier,
       updatedAt := now)
  }

  /** A request with no fields touches nothing but `updatedAt`. */
  lemma EmptyUpdateKeepsPart(p: Part, now: Tick)
    ensures ApplyUpdate(p, UpdatePartRequest(None, None, None, None, None, None, None), now)
         == p.(updatedAt := now)
  {
  }

  /** Applying the same update twice is applying it once. */
  lemma UpdateIdempotent(p: Part, req: UpdatePartRequest, now: Tick)
    ensures ApplyUpdate(ApplyUpdate(p, req, now), req, now) == ApplyUpdate(p, req, now)
  {
  }

  /** The unit price a movement is recorded at: the request's, else the part's. */
  function PriceOf(req: CreateTransactionRequest, part: Part): Cents {
    req.unitPrice.GetOr(part.unitPrice)
  }

  /** `TransactionTable.new { … }` in `create`. The request's `notes` are
      not copied; the dates take the column default. */
  function NewTransaction(id: int, req: CreateTransactionRequest, part: Part, at: Tick): (t: Transaction)
    ensures t.partId == req.partId && t.txType == req.txType && t.quantity == req.quantity
    ensures t.unitPrice == Some(PriceOf(req, part))
    ensures t.totalAmount == Some(PriceOf(req, part) * req.quantity)
    ensures t.notes == None
  {
    var price := PriceOf(req, part);
    Transaction(id, req.partId, req.txType, req.quantity, Some(price), Some(price * req.quantity),
                req.recipientName, req.reason, req.isPaid, req.amountPaid, at, None, at)
  }

  /** A movement can be written when its three money columns fit. */
  predicate MoneyFits(req: CreateTransactionRequest, part: Part) {
    && FitsDecimal(PriceOf(req, part))
    && FitsDecimal(PriceOf(req, part) * req.quantity)
    && FitsDecimal(req.amountPaid)
  }

  ghost predicate UniquePartNumbers(parts: map<int, Part>) {
    forall a, b | a in parts && b in parts && a != b :: parts[a].partNumber != parts[b].partNumber
  }

  predicate PartNumberTaken(parts: map<int, Part>, partNumber: string) {
    exists id | id in parts :: parts[id].partNumber == partNumber
  }

  predicate Referenced(transactions: map<int, Transaction>, partId: int) {
    exists id | id in transactions :: transactions[id].partId == partId
  }

  // ---------------------------------------------------------------------
  // The store
  // ---------------------------------------------------------------------

  class Store {
    var parts: map<int, Part>
    var transactions: map<int, Transaction>
    var nextPartId: nat
    var nextTransactionId: nat
    /** The last tick read from the clock. */
    var clock: Tick
    /** The tick of the column defaults `default(Clock.System.now() …)`:
        the expression is evaluated once, when the table object is set up,
        so every row created later gets this same instant. */
    const tableDefault: Tick
    /** The ids of the `categories` table, which this model does not change. */
    const categoryIds: set<int>

    ghost predicate Valid()
      reads this
    {
      && 1 <= nextPartId && 1 <= nextTransactionId
      && KeysMatch(parts)
      && (forall id | id in parts :: 1 <= id < nextPartId)
      && (forall id | id in parts :: parts[id].categoryId in categoryIds)
      && UniquePartNumbers(parts)
      && (forall id | id in transactions ::
            && 1 <= id < nextTransactionId
            && transactions[id].id == id
            && transactions[id].partId in parts)
      && tableDefault <= clock
    }

    constructor (categories: set<int>, startedAt: Tick)
      ensures Valid()
      ensures parts == map[] && transactions == map[]
      ensures categoryIds == categories && tableDefault == startedAt && clock == startedAt
    {
      parts, transactions := map[], map[];
      nextPartId, nextTransactionId := 1, 1;
      clock, tableDefault := startedAt, startedAt;
      categoryIds := categories;
    }

    /** `PartRepositoryImpl.create`. */
    method CreatePart(req: AddPartRequest) returns (r: Result<Part, Error>)
      requires Valid()
      modifies this
      ensures Valid()
      ensures !FitsDecimal(req.unitPrice) ==> r == Failure(NumericOverflow)
      ensures FitsDecimal(req.unitPrice) && req.categoryId !in categoryIds ==>
        r == Failure(ForeignKeyViolation)
      ensures FitsDecimal(req.unitPrice) && req.categoryId in categoryIds &&
              PartNumberTaken(old(parts), req.partNumber) ==>
        r == Failure(DuplicatePartNumber(req.partNumber))
      ensures FitsDecimal(req.unitPrice) && req.categoryId in categoryIds &&
              !PartNumberTaken(old(parts), req.partNumber) &&
              req.initialStock > 0 && !FitsDecimal(req.unitPrice * req.initialStock) ==>
        r == Failure(NumericOverflow)
      ensures FitsDecimal(req.unitPrice) && req.categoryId in categoryIds &&
              !PartNumberTaken(old(parts), req.partNumber) &&
              (req.initialStock > 0 ==> FitsDecimal(req.unitPrice * req.initialStock)) ==>
        r.Success?
      ensures r.Failure? ==> unchanged(this)
      ensures r.Success? ==>
        && r.value == NewPart(old(nextPartId), req, tableDefault)
        && r.value.currentStock == req.initialStock
        && parts == old(parts)[r.value.id := r.value]
        && r.value.id !in old(parts)
        && nextPartId == old(nextPartId) + 1
        && clock == old(clock)
      ensures r.Success? && req.initialStock > 0 ==>
        && transactions == old(transactions)[old(nextTransactionId) :=
             InitialStockEntry(old(nextTransactionId), r.value, tableDefault)]
        && old(nextTransactionId) !in old(transactions)
        && nextTransactionId == old(nextTransactionId) + 1
      ensures r.Success? && req.initialStock <= 0 ==>
        transactions == old(transactions) && nextTransactionId == old(nextTransactionId)
    {
      if !FitsDecimal(req.unitPrice) {
        return Failure(NumericOverflow);
      }
      if req.categoryId !in categoryIds {
        return Failure(ForeignKeyViolation);
      }
      if PartNumberTaken(parts, req.partNumber) {
        return Failure(DuplicatePartNumber(req.partNumber));
      }
      var part := NewPart(nextPartId, req, tableDefault);
      if req.initialStock > 0 && !FitsDecimal(req.unitPrice * req.initialStock) {
        return Failure(NumericOverflow);
      }
      parts := parts[part.id := part];
      nextPartId := nextPartId + 1;
      if req.initialStock > 0 {
        var entry := InitialStockEntry(nextTransactionId, part, tableDefault);
        transactions := transactions[entry.id := entry];
        nextTransactionId := nextTransactionId + 1;
      }
      r := Success(part);
    }

    /** `PartRepositoryImpl.update`: a partial update; `None` if the id is unknown. */
    method UpdatePart(id: int, req: UpdatePartRequest) returns (r: Result<Option<Part>, Error>)
      requires Valid()
      modifies this
      ensures Valid()
      ensures id !in old(parts) ==> r == Success(None) && unchanged(this)
      ensures id in old(parts) && !FitsDecimal(req.unitPrice.GetOr(0)) ==>
        r == Failure(NumericOverflow) && unchanged(this)
      ensures id in old(parts) && FitsDecimal(req.unitPrice.GetOr(0)) ==>
        && clock == old(clock) + 1
        && parts == old(parts)[id := ApplyUpdate(old(parts)[id], req, clock)]
        && r == Success(Some(parts[id]))
        && transactions == old(transactions)
        && nextPartId == old(nextPartId) && nextTransactionId == old(nextTransactionId)
    {
      if id !in parts {
        return Success(None);
      }
      if !FitsDecimal(req.unitPrice.GetOr(0)) {
        return Failure(NumericOverflow);
      }
      clock := clock + 1;
      var updated := ApplyUpdate(parts[id], req, clock);
      parts := parts[id := updated];
      r := Success(Some(updated));
    }

    /** `PartRepositoryImpl.delete`: `false` for an unknown id; the foreign
        key from `transactions` refuses to drop a part that has movements. */
    method DeletePart(id: int) returns (r: Result<bool, Error>)
      requires Valid()
      modifies this
      ensures Valid()
      ensures id !in old(parts) ==> r == Success(false) && unchanged(this)
      ensures id in old(parts) && Referenced(old(transactions), id) ==>
        r == Failure(ForeignKeyViolation) && unchanged(this)
      ensures id in old(parts) && !Referenced(old(transactions), id) ==>
        && r == Success(true)
        && parts == old(parts) - {id}
        && transactions == old(transactions)
        && nextPartId == old(nextPartId) && nextTransactionId == old(nextTransactionId)
        && clock == old(clock)
    {
      if id !in parts {
        return Success(false);
      }
      if Referenced(transactions, id) {
        return Failure(ForeignKeyViolation);
      }
      parts := parts - {id};
      r := Success(true);
    }

    /** `PartRepositoryImpl.updateStock`: sets the stock outright. */
    method UpdateStock(partId: int, newStock: Int32) returns (ok: bool)
      requires Valid()
      modifies this
      ensures Valid()
      ensures ok <==> partId in old(parts)
      ensures !ok ==> unchanged(this)
      ensures ok ==>
        && clock == old(clock) + 1
        && parts == old(parts)[partId := old(parts)[partId].(currentStock := newStock, updatedAt := clock)]
        && transactions == old(transactions)
        && nextPartId == old(nextPartId) && nextTransactionId == old(nextTransactionId)
    {
      if partId !in parts {
        return false;
      }
      clock := clock + 1;
      parts := parts[partId := parts[partId].(currentStock := newStock, updatedAt := clock)];
      ok := true;
    }

    /** `PartRepositoryImpl.search`: the conditions are added one by one as
        the request supplies them; the count ignores paging. */
    method Search(req: SearchPartsRequest) returns (r: Result<SearchResult, Error>)
      requires Valid()
      ensures r.Failure? <==> req.limit < 0
      ensures r.Failure? ==> r.error == PagingRejected
      ensures r.Success? ==>
        var all := Matching(parts, req, nextPartId);
        && r.value.total == |all| == |MatchingIds(parts, req)|
        && r.value.parts == Window(all, ReadFrom(req.page, req.limit), req.limit)
      ensures r.Success? ==>
        && |r.value.parts| <= req.limit
        && forall p <- r.value.parts :: p.id in parts && parts[p.id] == p && MatchesRequest(p, req)
    {
      var query: seq<Condition> := [];
      if req.query.Some? {
        HoldsAllSnoc(query, TextLike(req.query.value));
        query := query + [TextLike(req.query.value)];
      }
      assert forall p :: HoldsAll(p, query) == (req.query.Some? ==> TextMatches(p, req.query.value));
      if req.categoryId.Some? {
        HoldsAllSnoc(query, CategoryIs(req.categoryId.value));
        query := query + [CategoryIs(req.categoryId.value)];
      }
      assert forall p :: (HoldsAll(p, query) ==
        ((req.query.Some? ==> TextMatches(p, req.query.value)) &&
         (req.categoryId.Some? ==> p.categoryId == req.categoryId.value)));
      if req.lowStock.Some? {
        if req.lowStock.value {
          HoldsAllSnoc(query, LowStock);
          query := query + [LowStock];
        }
      }
      assert forall p :: HoldsAll(p, query) == MatchesRequest(p, req);
      var selected := Scan(parts, (p: Part) => HoldsAll(p, query), nextPartId);
      ScanExt(parts, (p: Part) => HoldsAll(p, query), (p: Part) => MatchesRequest(p, req), nextPartId);
      assert selected == Matching(parts, req, nextPartId);
      var total := |selected|;
      if req.limit < 0 {
        return Failure(PagingRejected);
      }
      var offset := ReadFrom(req.page, req.limit);
      ScanCount(parts, (p: Part) => MatchesRequest(p, req), nextPartId);
      assert IdsBelow(parts, (p: Part) => MatchesRequest(p, req), nextPartId) == MatchingIds(parts, req);
      ScanMembers(parts, (p: Part) => MatchesRequest(p, req), nextPartId);
      var page := Window(selected, offset, req.limit);
      r := Success(SearchResult(page, total));
    }

    /** `PartRepositoryImpl.findLowStockParts`. */
    method FindLowStockParts() returns (r: seq<Part>)
      requires Valid()
      ensures r == Scan(parts, IsLowStock, nextPartId)
      ensures forall p <- r :: p.id in parts && parts[p.id] == p && IsLowStock(p)
      ensures forall id | id in parts && IsLowStock(parts[id]) :: parts[id] in r
      ensures Ascending(r)
    {
      r := Scan(parts, IsLowStock, nextPartId);
      ScanMembers(parts, IsLowStock, nextPartId);
      ScanAscending(parts, IsLowStock, nextPartId);
    }

    /** `TransactionRepositoryImpl.create`: records the movement and changes
        the part's stock, both or neither. */
    method CreateTransaction(req: CreateTransactionRequest) returns (r: Result<Transaction, Error>)
      requires Valid()
      modifies this
      ensures Valid()
      ensures req.partId !in old(parts) ==> r == Failure(PartNotFound) && unchanged(this)
      ensures req.partId in old(parts) && !MoneyFits(req, old(parts)[req.partId]) ==>
        r == Failure(NumericOverflow) && unchanged(this)
      ensures req.partId in old(parts) && MoneyFits(req, old(parts)[req.partId]) ==>
        var part := old(parts)[req.partId];
        && r.Success?
        && r.value == NewTransaction(old(nextTransactionId), req, part, tableDefault)
        && r.value.id !in old(transactions)
        && transactions == old(transactions)[r.value.id := r.value]
        && nextTransactionId == old(nextTransactionId) + 1
        && clock == old(clock) + 1
        && parts == old(parts)[req.partId := part.(
             currentStock := StockAfter(req.txType, part.currentStock, req.quantity),
             updatedAt := clock)]
        && nextPartId == old(nextPartId)
    {
      if req.partId !in parts {
        return Failure(PartNotFound);
      }
      var part := parts[req.partId];
      if !MoneyFits(req, part) {
        return Failure(NumericOverflow);
      }
      var entry := NewTransaction(nextTransactionId, req, part, tableDefault);
      transactions := transactions[entry.id := entry];
      nextTransactionId := nextTransactionId + 1;
      var stock: Int32;
      match req.txType {
        case IN =>
          stock := Add(part.currentStock, req.quantity);
        case OUT =>
          stock := Sub(part.currentStock, req.quantity);
          if stock < 0 {
            stock := 0;
          }
        case ADJUSTMENT =>
          stock := req.quantity;
      }
      clock := clock + 1;
      parts := parts[req.partId := part.(currentStock := stock, updatedAt := clock)];
      r := Success(entry);
    }

    /** `TransactionRepositoryImpl.updatePayment`: only the payment columns change. */
    method UpdatePayment(id: int, req: PaymentUpdateRequest) returns (r: Result<Option<Transaction>, Error>)
      requires Valid()
      modifies this
      ensures Valid()
      ensures id !in old(transactions) ==> r == Success(None) && unchanged(this)
      ensures id in old(transactions) && !FitsDecimal(req.amountPaid) ==>
        r == Failure(NumericOverflow) && unchanged(this)
      ensures id in old(transactions) && FitsDecimal(req.amountPaid) ==>
        && transactions == old(transactions)[id := old(transactions)[id].(amountPaid := req.amountPaid, isPaid := req.isPaid)]
        && r == Success(Some(transactions[id]))
        && parts == old(parts) && clock == old(clock)
        && nextPartId == old(nextPartId) && nextTransactionId == old(nextTransactionId)
    {
      if id !in transactions {
        return Success(None);
      }
      if !FitsDecimal(req.amountPaid) {
        return Failure(NumericOverflow);
      }
      var updated := transactions[id].(amountPaid := req.amountPaid, isPaid := req.isPaid);
      transactions := transactions[id := updated];
      r := Success(Some(updated));
    }

    /** `TransactionRepositoryImpl.delete`: the row goes, its stock effect stays. */
    method DeleteTransaction(id: int) returns (deleted: bool)
      requires Valid()
      modifies this
      ensures Valid()
      ensures deleted <==> id in old(transactions)
      ensures transactions == old(transactions) - {id}
      ensures parts == old(parts)
      ensures nextPartId == old(nextPartId) && nextTransactionId == old(nextTransactionId)
      ensures clock == old(clock)
    {
      deleted := id in transactions;
      transactions := transactions - {id};
    }
  }

  /** Asking `search` for low-stock parts only, with a page large enough,
      gives what `findLowStockParts` gives. */
  lemma LowStockSearchAgrees(parts: map<int, Part>, n: nat, limit: Int32)
    requires limit as int >= |Scan(parts, IsLowStock, n)|
    ensures var req := SearchPartsRequest(None, None, Some(true), 1, limit);
      Window(Matching(parts, req, n), ReadFrom(1, limit), limit) == Scan(parts, IsLowStock, n)
  {
    var req := SearchPartsRequest(None, None, Some(true), 1, limit);
    ScanExt(parts, (p: Part) => MatchesRequest(p, req), IsLowStock, n);
  }
}
