/** `TransactionServiceImpl.createTransaction` and `PartServiceImpl.searchParts`. */
module Services {
  import opened KotlinInt
  import opened Models
  import opened StockMovement
  import opened Repository

  // ---------------------------------------------------------------------
  // createTransaction
  // ---------------------------------------------------------------------

  /** The checks `createTransaction` makes before it writes anything: the
      part must exist, and an OUT must be covered by the current stock.
      `None` means the request goes through to the repository. */
  function Guard(parts: map<int, Part>, req: CreateTransactionRequest): (e: Option<Error>)
    ensures e == None <==>
      req.partId in parts && (req.txType == OUT ==> req.quantity <= parts[req.partId].currentStock)
    ensures req.partId !in parts ==> e == Some(PartWithIdNotFound(req.partId))
    ensures req.partId in parts && req.txType == OUT && parts[req.partId].currentStock < req.quantity ==>
      e == Some(InsufficientStock(parts[req.partId].currentStock, req.quantity))
    ensures req.partId in parts && req.txType != OUT ==> e == None
  {
    if req.partId !in parts then Some(PartWithIdNotFound(req.partId))
    else if req.txType == OUT && parts[req.partId].currentStock < req.quantity then
      Some(InsufficientStock(parts[req.partId].currentStock, req.quantity))
    else None
  }

  /** `createTransaction`: validate, then record the movement and change the
      stock. On a failure nothing is written. */
  method CreateTransaction(store: Store, req: CreateTransactionRequest) returns (r: Result<Transaction, Error>)
    requires store.Valid()
    modifies store
    ensures store.Valid()
    ensures Guard(old(store.parts), req).Some? ==>
      r == Failure(Guard(old(store.parts), req).value) && unchanged(store)
    ensures r.Failure? ==> unchanged(store)
    ensures Guard(old(store.parts), req) == None && !MoneyFits(req, old(store.parts)[req.partId]) ==>
      r == Failure(NumericOverflow)
    ensures r.Success? ==> req.partId in old(store.parts) && req.partId in store.parts
    ensures r.Success? ==>
      var before := old(store.parts)[req.partId];
      var after := store.parts[req.partId];
      && Guard(old(store.parts), req) == None
      && store.transactions == old(store.transactions)[r.value.id := r.value]
      && r.value.id == old(store.nextTransactionId)
      && r.value.id !in old(store.transactions)
      && r.value == NewTransaction(r.value.id, req, before, store.tableDefault)
      && store.parts == old(store.parts)[req.partId := after]
      && after == before.(currentStock := after.currentStock, updatedAt := store.clock)
      && after.currentStock == StockAfter(req.txType, before.currentStock, req.quantity)
      && store.clock == old(store.clock) + 1
      && store.nextTransactionId == old(store.nextTransactionId) + 1
      && store.nextPartId == old(store.nextPartId)
    // an accepted OUT of a non-negative quantity never reaches the floor at 0
    ensures r.Success? && req.txType == OUT && 0 <= req.quantity ==>
      store.parts[req.partId].currentStock == old(store.parts)[req.partId].currentStock - req.quantity
    ensures Guard(old(store.parts), req) == None && MoneyFits(req, old(store.parts)[req.partId]) ==> r.Success?
  {
    var e := Guard(store.parts, req);
    if e.Some? {
      return Failure(e.value);
    }
    r := store.CreateTransaction(req);
  }

  /** The floor in the repository's OUT branch cannot be reached through the
      service: what the guard lets through subtracts exactly. */
  lemma AcceptedOutIsExact(stock: Int32, quantity: Int32)
    requires 0 <= quantity <= stock
    ensures StockAfter(OUT, stock, quantity) == stock - quantity
    ensures quantity == stock ==> StockAfter(OUT, stock, quantity) == 0
  {
  }

  /** Without the guard, an OUT of a negative quantity from a stock near
      `Int.MAX_VALUE` wraps below zero and the floor sets the stock to 0. */
  lemma NegativeOutCanHitFloor()
    ensures StockAfter(OUT, MAX_VALUE, -1) == 0
  {
  }

  // ---------------------------------------------------------------------
  // searchParts
  // ---------------------------------------------------------------------

  /** `(total + request.limit - 1) / request.limit` exactly as written, in
      `Int`. A zero limit throws before this is reached in the model. */
  function TotalPagesAsWritten(total: Int32, limit: Int32): (r: Int32)
    requires limit != 0
    ensures 0 <= total && 0 < limit && total + limit - 1 <= MAX_VALUE ==>
      total <= r * limit && (r == 0 || (r - 1) * limit < total)
  {
    var r := Div(Sub(Add(total, limit), 1), limit);
    if 0 <= total && 0 < limit && total + limit - 1 <= MAX_VALUE then
      CeilDivision(total, limit as int);
      r
    else r
  }

  /** Two matches and a limit of `Int.MAX_VALUE` give -1 pages: the sum
      overflows before the division. */
  lemma TotalPagesAsWrittenOverflows()
    ensures TotalPagesAsWritten(2, MAX_VALUE) == -1
  {
    assert Add(2, MAX_VALUE) == MIN_VALUE + 1;
  }

  /** The page count, with the sum taken in a type wide enough for it:
      the least number of pages of `limit` rows that holds `total` rows. */
  function TotalPages(total: nat, limit: Int32): (r: nat)
    requires limit > 0
    ensures total <= r * limit
    ensures r == 0 || (r - 1) * limit < total
  {
    CeilDivision(total, limit as int);
    (total + limit - 1) / limit
  }

  lemma CeilDivision(total: nat, limit: int)
    requires limit > 0
    ensures var r := (total + limit - 1) / limit; total <= r * limit && (r == 0 || (r - 1) * limit < total)
  {
    var n := total + limit - 1;
    var r, m := n / limit, n % limit;
    assert n == r * limit + m && 0 <= m < limit;
    assert r * limit == n - m;
    assert (r - 1) * limit == n - m - limit;
  }

  /** When the sum does not overflow, the code as written counts right. */
  lemma TotalPagesAgree(total: Int32, limit: Int32)
    requires 0 <= total && 0 < limit && total + limit - 1 <= MAX_VALUE
    ensures TotalPagesAsWritten(total, limit) == TotalPages(total, limit)
  {
  }

  /** A page is non-empty exactly when its number is at most the page count. */
  lemma {:induction false} PageNonEmptyUpToTotalPages(rows: seq<Part>, page: Int32, limit: Int32)
    requires 1 <= page && 0 < limit
    ensures Window(rows, Offset(page, limit), limit) != [] <==> page <= TotalPages(|rows|, limit)
  {
    var off, tp := Offset(page, limit), TotalPages(|rows|, limit);
    if off < |rows| {
      assert (page - 1) * limit < |rows| <= tp * limit;
      if page > tp {
        MulMonotone(tp, page - 1, limit as int);
        assert false;
      }
    } else {
      if page <= tp {
        assert tp >= 1;
        MulMonotone(page - 1, tp - 1, limit as int);
        assert false;
      }
    }
  }

  /** `searchParts`: one page of matches with the request's paging echoed
      back and the page count. */
  method SearchParts(store: Store, req: SearchPartsRequest) returns (r: Result<PaginatedResponse, Error>)
    requires store.Valid()
    ensures r.Success? <==> 0 < req.limit
    ensures req.limit == 0 ==> r == Failure(DivisionByZero)
    ensures req.limit < 0 ==> r == Failure(PagingRejected)
    ensures r.Success? ==>
      var all := Matching(store.parts, req, store.nextPartId);
      && r.value.page == req.page && r.value.limit == req.limit
      && r.value.total == |all| == |MatchingIds(store.parts, req)|
      && r.value.data == Window(all, ReadFrom(req.page, req.limit), req.limit)
      && r.value.totalPages == TotalPages(|all|, req.limit)
      && (1 <= req.page ==> (r.value.data != [] <==> req.page <= r.value.totalPages))
    // a page of 0 or less is answered with the first page
    ensures r.Success? && req.page < 1 ==>
      r.value.data == Window(Matching(store.parts, req, store.nextPartId), 0, req.limit)
  {
    var found := store.Search(req);
    if found.Failure? {
      return Failure(found.error);
    }
    var total := found.value.total;
    if req.limit == 0 {
      return Failure(DivisionByZero);
    }
    var all := Matching(store.parts, req, store.nextPartId);
    if 1 <= req.page {
      PageNonEmptyUpToTotalPages(all, req.page, req.limit);
    }
    r := Success(PaginatedResponse(found.value.parts, req.page, req.limit, total, TotalPages(total, req.limit)));
  }

  /** Page 2 of 20 over 45 matches holds 20 parts, and there are 3 pages. */
  lemma SecondPageOfFortyFive(all: seq<Part>)
    requires |all| == 45
    ensures |Window(all, Offset(2, 20), 20)| == 20
    ensures TotalPages(|all|, 20) == 3
  {
  }
}
