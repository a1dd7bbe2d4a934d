/** How one stock movement changes a part's `currentStock`
    (the `when (request.type)` block of `TransactionRepositoryImpl.create`),
    and what a run of movements adds up to. */
module StockMovement {
  import opened KotlinInt
  import opened Models

  /** The stock after a movement of `quantity` of kind `t`, in Kotlin `Int`
      arithmetic: IN adds, OUT subtracts and floors at zero, ADJUSTMENT sets. */
  function StockAfter(t: TransactionType, stock: Int32, quantity: Int32): (r: Int32)
    ensures t == IN ==> (stock + quantity - r) % MODULUS == 0
    ensures t == OUT ==> 0 <= r && (r == 0 || (stock - quantity - r) % MODULUS == 0)
    ensures t == OUT && 0 <= stock - quantity <= MAX_VALUE ==> r == stock - quantity
    ensures t == ADJUSTMENT ==> r == quantity
  {
    match t
    case IN => Add(stock, quantity)
    case OUT =>
      var s := Sub(stock, quantity);
      if s < 0 then 0 else s
    case ADJUSTMENT => quantity
  }

  lemma InAddsQuantity(stock: Int32, quantity: Int32)
    requires stock + quantity <= MAX_VALUE && stock + quantity >= MIN_VALUE
    ensures StockAfter(IN, stock, quantity) == stock + quantity
  {
  }

  /** An IN that overflows `Int` wraps around to a negative stock. */
  lemma InOverflowWraps(stock: Int32, quantity: Int32)
    requires 0 <= stock && 0 <= quantity && stock + quantity > MAX_VALUE
    ensures StockAfter(IN, stock, quantity) == stock + quantity - MODULUS < 0
  {
  }

  lemma OutNeverNegative(stock: Int32, quantity: Int32)
    ensures StockAfter(OUT, stock, quantity) >= 0
    ensures InRange(stock - quantity) ==>
      StockAfter(OUT, stock, quantity) == if stock - quantity < 0 then 0 else stock - quantity
  {
  }

  lemma AdjustmentSetsStock(stock: Int32, quantity: Int32)
    ensures StockAfter(ADJUSTMENT, stock, quantity) == quantity
  {
  }

  /** A movement as the ledger of a part sees it. */
  datatype Movement = Movement(txType: TransactionType, quantity: Int32)

  /** The stock after applying `ms` in order, starting from `stock`. */
  function Replay(stock: Int32, ms: seq<Movement>): Int32
    decreases |ms|
  {
    if ms == [] then stock
    else Replay(StockAfter(ms[0].txType, stock, ms[0].quantity), ms[1..])
  }

  /** The movements the service accepts one after another with nothing
      overflowing: quantities are not negative, every OUT is covered by the
      stock at the time, and no IN pushes the stock past `Int.MAX_VALUE`. */
  predicate Admissible(stock: Int32, ms: seq<Movement>)
    decreases |ms|
  {
    ms == [] ||
    (&& 0 <= ms[0].quantity
     && (ms[0].txType == OUT ==> ms[0].quantity <= stock)
     && (ms[0].txType == IN ==> stock + ms[0].quantity <= MAX_VALUE)
     && Admissible(StockAfter(ms[0].txType, stock, ms[0].quantity), ms[1..]))
  }

  function Delta(m: Movement): int {
    match m.txType
    case IN => m.quantity as int
    case OUT => -(m.quantity as int)
    case ADJUSTMENT => 0
  }

  /** IN quantities minus OUT quantities. */
  function NetFlow(ms: seq<Movement>): int
    decreases |ms|
  {
    if ms == [] then 0 else Delta(ms[0]) + NetFlow(ms[1..])
  }

  /** The index of the last ADJUSTMENT in `ms`, or -1 if there is none. */
  function LastAdjustment(ms: seq<Movement>): (k: int)
    decreases |ms|
    ensures -1 <= k < |ms|
    ensures 0 <= k ==> ms[k].txType == ADJUSTMENT
    ensures forall j :: k < j < |ms| ==> ms[j].txType != ADJUSTMENT
  {
    if ms == [] then -1
    else
      var k := LastAdjustment(ms[1..]);
      assert forall j :: k + 1 < j < |ms| ==> ms[j] == ms[1..][j - 1];
      if 0 <= k then k + 1
      else if ms[0].txType == ADJUSTMENT then 0
      else -1
  }

  /** The running total as a ledger states it: the last ADJUSTMENT (or the
      opening stock when there is none) plus the IN quantities and minus the
      OUT quantities recorded after it. */
  function Balance(stock: Int32, ms: seq<Movement>): int {
    var k := LastAdjustment(ms);
    if k < 0 then stock + NetFlow(ms)
    else ms[k].quantity + NetFlow(ms[k + 1..])
  }

  /** Along any run the service accepts, applying the movements one at a
      time gives the ledger balance, and the stock is never negative. */
  lemma {:induction false} ReplayIsBalance(stock: Int32, ms: seq<Movement>)
    requires 0 <= stock
    requires Admissible(stock, ms)
    ensures Replay(stock, ms) == Balance(stock, ms)
    ensures Replay(stock, ms) >= 0
    decreases |ms|
  {
    if ms != [] {
      var next := StockAfter(ms[0].txType, stock, ms[0].quantity);
      StepKeepsBalance(stock, ms);
      ReplayIsBalance(next, ms[1..]);
    }
  }

  /** One accepted movement moves the opening stock of the ledger without
      changing its balance. */
  lemma StepKeepsBalance(stock: Int32, ms: seq<Movement>)
    requires 0 <= stock && ms != [] && 0 <= ms[0].quantity
    requires ms[0].txType == OUT ==> ms[0].quantity <= stock
    requires ms[0].txType == IN ==> stock + ms[0].quantity <= MAX_VALUE
    ensures 0 <= StockAfter(ms[0].txType, stock, ms[0].quantity)
    ensures Balance(StockAfter(ms[0].txType, stock, ms[0].quantity), ms[1..]) == Balance(stock, ms)
  {
    var next := StockAfter(ms[0].txType, stock, ms[0].quantity);
    if 0 <= LastAdjustment(ms[1..]) {
      LaterAdjustmentDecides(ms, stock, next);
    } else if ms[0].txType == ADJUSTMENT {
      HeadAdjustmentDecides(ms, stock);
    } else {
      StepIsDelta(stock, ms[0]);
      NoAdjustmentAddsUp(ms, stock);
    }
  }

  /** An accepted IN or OUT changes the stock by exactly its quantity. */
  lemma StepIsDelta(stock: Int32, m: Movement)
    requires 0 <= stock && 0 <= m.quantity && m.txType != ADJUSTMENT
    requires m.txType == OUT ==> m.quantity <= stock
    requires m.txType == IN ==> stock + m.quantity <= MAX_VALUE
    ensures StockAfter(m.txType, stock, m.quantity) == stock + Delta(m) >= 0
  {
  }

  /** When the tail holds an ADJUSTMENT, the balance ignores the head. */
  lemma LaterAdjustmentDecides(ms: seq<Movement>, s: Int32, t: Int32)
    requires ms != [] && 0 <= LastAdjustment(ms[1..])
    ensures Balance(s, ms) == Balance(t, ms[1..])
  {
    var rest := ms[1..];
    var kr := LastAdjustment(rest);
    assert LastAdjustment(ms) == kr + 1;
    assert rest[kr] == ms[kr + 1];
    assert rest[kr + 1..] == ms[kr + 2..];
  }

  /** When the head is the only ADJUSTMENT, it is the ledger's opening stock. */
  lemma HeadAdjustmentDecides(ms: seq<Movement>, s: Int32)
    requires ms != [] && LastAdjustment(ms[1..]) < 0 && ms[0].txType == ADJUSTMENT
    ensures Balance(s, ms) == Balance(ms[0].quantity, ms[1..])
  {
    assert LastAdjustment(ms) == 0;
  }

  /** With no ADJUSTMENT anywhere, the head's quantity moves into the opening stock. */
  lemma NoAdjustmentAddsUp(ms: seq<Movement>, s: Int32)
    requires ms != [] && LastAdjustment(ms[1..]) < 0 && ms[0].txType != ADJUSTMENT
    ensures Balance(s, ms) == s + Delta(ms[0]) + NetFlow(ms[1..])
    ensures LastAdjustment(ms) < 0
  {
    assert LastAdjustment(ms) == -1;
  }
}
