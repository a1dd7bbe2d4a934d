/** Records and requests of the inventory backend.

    Money columns are `decimal(10, 2)` and the requests carry `Double`s;
    here every amount is a whole number of cents. Timestamps are ticks of an
    abstract clock. Every `Int` field of the Kotlin code is an `Int32`. */
module Models {
  import opened KotlinInt

  datatype Option<+T> = None | Some(value: T) {
    function GetOr(default: T): T {
      if Some? then value else default
    }
  }

  datatype Result<+R, +E> = Success(value: R) | Failure(error: E)

  /** An amount of money in cents. */
  type Cents = int

  /** An instant of the clock; only its order matters. */
  type Tick = nat

  /** The largest magnitude a `decimal(10, 2)` column accepts, in cents
      (99 999 999.99). */
  const DECIMAL_MAX: int := 99_999_999_99

  predicate FitsDecimal(c: Cents) {
    -DECIMAL_MAX <= c <= DECIMAL_MAX
  }

  datatype TransactionType = IN | OUT | ADJUSTMENT

  /** A row of the `parts` table. */
  datatype Part = Part(
    id: int,
    name: string,
    description: Option<string>,
    partNumber: string,
    categoryId: int,
    unitPrice: Cents,
    currentStock: Int32,
    minimumStock: Int32,
    maxStock: Option<Int32>,
    location: Option<string>,
    supplier: Option<string>,
    createdAt: Tick,
    updatedAt: Tick)

  /** A row of the `transactions` table. */
  datatype Transaction = Transaction(
    id: int,
    partId: int,
    txType: TransactionType,
    quantity: Int32,
    unitPrice: Option<Cents>,
    totalAmount: Option<Cents>,
    recipientName: Option<string>,
    reason: Option<string>,
    isPaid: bool,
    amountPaid: Cents,
    transactionDate: Tick,
    notes: Option<string>,
    createdAt: Tick)

  datatype CreateTransactionRequest = CreateTransactionRequest(
    partId: int,
    txType: TransactionType,
    quantity: Int32,
    unitPrice: Option<Cents>,
    recipientName: Option<string>,
    reason: Option<string>,
    isPaid: bool,
    amountPaid: Cents,
    notes: Option<string>)

  datatype AddPartRequest = AddPartRequest(
    name: string,
    description: Option<string>,
    partNumber: string,
    categoryId: int,
    unitPrice: Cents,
    initialStock: Int32,
    minimumStock: Int32,
    maxStock: Option<Int32>,
    location: Option<string>,
    supplier: Option<string>)

  /** A partial update: `None` leaves the field as it is. */
  datatype UpdatePartRequest = UpdatePartRequest(
    name: Option<string>,
    description: Option<string>,
    unitPrice: Option<Cents>,
    minimumStock: Option<Int32>,
    maxStock: Option<Int32>,
    location: Option<string>,
    supplier: Option<string>)

  datatype SearchPartsRequest = SearchPartsRequest(
    query: Option<string>,
    categoryId: Option<int>,
    lowStock: Option<bool>,
    page: Int32,
    limit: Int32)

  datatype PaymentUpdateRequest = PaymentUpdateRequest(amountPaid: Cents, isPaid: bool)

  datatype PaginatedResponse = PaginatedResponse(
    data: seq<Part>,
    page: Int32,
    limit: Int32,
    total: nat,
    totalPages: nat)

  /** Why an operation failed. Every failure leaves the store as it was,
      because each operation runs inside one database transaction. */
  datatype Error =
    /** `IllegalArgumentException("Part not found")` from the repository. */
    | PartNotFound
    /** `IllegalArgumentException("Part with id … not found")` from the service. */
    | PartWithIdNotFound(partId: int)
    /** `IllegalArgumentException("Insufficient stock. Available: …, Requested: …")`. */
    | InsufficientStock(available: int, requested: int)
    /** The unique index on `parts.part_number` rejects the insert. */
    | DuplicatePartNumber(partNumber: string)
    /** A foreign key (part to category, transaction to part) rejects the write. */
    | ForeignKeyViolation
    /** A money amount does not fit a `decimal(10, 2)` column. */
    | NumericOverflow
    /** PostgreSQL refuses a negative `LIMIT`. */
    | PagingRejected
    /** `ArithmeticException` from an `Int` division by zero. */
    | DivisionByZero
}
