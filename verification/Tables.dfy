/**
 The customers, receipts and ledger tables, and the transactions of internal/loyalty/service.go as
 functions on them: each takes the tables its transaction starts from and gives the tables it
 leaves and the answer.
 */
module Tables {
  import opened Decimal
  import opened Phone
  import opened Rules
  import opened Wrappers

  datatype Customer = Customer(
    id: string,
    barcode: string,
    name: string,
    phone: string,
    points: int,
    blocked: bool,
    createdAt: int,
    updatedAt: int,
    deletedAt: Option<int>
  )

  datatype Status = Committed | Refunded

  datatype Receipt = Receipt(
    id: string,
    storeId: string,
    staffId: string,
    customerId: string,
    amountRub: int,
    redeemPoints: int,
    earnPoints: int,
    status: Status,
    pointsAfter: int,
    pointsAfterRefund: Option<int>,
    createdAt: int,
    refundedAt: Option<int>
  )

  datatype Reason = Earned | Redeemed | EarnReversed | RedeemReturned | Adjusted(comment: string)

  datatype LedgerRow = LedgerRow(
    customerId: string,
    receiptId: Option<string>,
    delta: int,
    reason: Reason,
    actorId: string,
    at: int
  )

  datatype Tables = Tables(
    customers: map<string, Customer>,
    receipts: map<string, Receipt>,
    ledger: seq<LedgerRow>
  )

  const NO_ROWS := Tables(map[], map[], [])

  /** NoRows and Violation are the database's own answers; Broken is any other failure of it. */
  datatype Error = Refused(code: Code) | NoRows | Violation | Broken

  /** A scanned code after text parsing: its normalised barcode, and itself when it parses as a UUID. */
  datatype CardCode = CardCode(blank: bool, barcode: string, customerId: Option<string>)

  datatype CommitInput = CommitInput(
    receiptId: string,
    idParses: bool,
    card: CardCode,
    amountRub: int,
    redeemPoints: int,
    storeId: string,
    staffId: string
  )

  datatype CommitResult = CommitResult(
    receiptId: string,
    customerId: string,
    barcode: string,
    points: int,
    earnPoints: int,
    redeemPoints: int,
    idempotentReplay: bool
  )

  datatype RefundResult = RefundResult(receiptId: string, customerId: string, points: int, idempotentReplay: bool)

  // ---- row operations ------------------------------------------------------------------------

  function NullIfEmpty(id: string): Option<string> {
    if id == "" then None else Some(id)
  }

  function Repointed(customers: map<string, Customer>, id: string, points: int, now: int): map<string, Customer>
    requires id in customers
  {
    customers[id := customers[id].(points := points, updatedAt := now)]
  }

  function SetPoints(t: Tables, customerId: string, points: int, now: int): Tables {
    if customerId !in t.customers then t else t.(customers := Repointed(t.customers, customerId, points, now))
  }

  /** Ledger rows and the new balance of one customer, written together. */
  function Post(t: Tables, customerId: string, rows: seq<LedgerRow>, points: int, now: int): Tables {
    SetPoints(t.(ledger := t.ledger + rows), customerId, points, now)
  }

  function MarkRefunded(t: Tables, receiptId: string, pointsAfter: int, now: int): Tables {
    if receiptId !in t.receipts then t
    else
      var rec := t.receipts[receiptId];
      t.(receipts := t.receipts[receiptId :=
           rec.(status := Refunded, pointsAfterRefund := Some(pointsAfter), refundedAt := Some(now))])
  }

  // ---- resolving a card ----------------------------------------------------------------------

  predicate Bears(t: Tables, id: string, barcode: string) {
    id in t.customers && t.customers[id].barcode == barcode
  }

  /** The customer with this barcode; the column is unique, so there is at most one. */
  ghost function ByBarcode(t: Tables, barcode: string): Option<Customer> {
    if exists id :: Bears(t, id, barcode) then
      var id :| Bears(t, id, barcode);
      Some(t.customers[id])
    else None
  }

  ghost function Resolve(t: Tables, card: CardCode): Result<Customer, Error> {
    if card.blank then Failure(Refused(InvalidRequest))
    else if ByBarcode(t, card.barcode).Some? then Success(ByBarcode(t, card.barcode).value)
    else if card.customerId.Some? && card.customerId.value in t.customers then
      Success(t.customers[card.customerId.value])
    else Failure(Refused(CustomerNotFound))
  }

  /** None when the card may be used. */
  function Unusable(c: Customer): Option<Code> {
    if c.deletedAt.Some? then Some(CustomerDeleted)
    else if c.blocked then Some(CustomerBlocked)
    else None
  }

  // ---- commit --------------------------------------------------------------------------------

  function CommitReceipt(row: Customer, req: CommitInput, st: Settings, now: int): Receipt {
    var earn := ComputeEarn(req.amountRub, req.redeemPoints, st);
    Receipt(req.receiptId, req.storeId, req.staffId, row.id, req.amountRub, req.redeemPoints, earn, Committed,
            row.points - req.redeemPoints + earn, None, now, None)
  }

  function CommitRows(rec: Receipt, now: int): seq<LedgerRow> {
    (if rec.redeemPoints == 0 then []
     else [LedgerRow(rec.customerId, NullIfEmpty(rec.id), -rec.redeemPoints, Redeemed, rec.staffId, now)])
    + (if rec.earnPoints == 0 then []
       else [LedgerRow(rec.customerId, NullIfEmpty(rec.id), rec.earnPoints, Earned, rec.staffId, now)])
  }

  /** The writes of a commit, computed from the locked row. */
  function PublishCommit(t: Tables, row: Customer, req: CommitInput, st: Settings, now: int): Tables {
    var rec := CommitReceipt(row, req, st, now);
    Post(t.(receipts := t.receipts[rec.id := rec]), row.id, CommitRows(rec, now), rec.pointsAfter, now)
  }

  function FreshResult(row: Customer, req: CommitInput, st: Settings): CommitResult {
    var earn := ComputeEarn(req.amountRub, req.redeemPoints, st);
    CommitResult(req.receiptId, row.id, row.barcode, row.points - req.redeemPoints + earn, earn, req.redeemPoints,
                 false)
  }

  /** The answer when the receipt id is already taken. */
  function ReplayResult(existing: Receipt, card: Customer, req: CommitInput): Result<CommitResult, Error> {
    if || existing.customerId != card.id || existing.amountRub != req.amountRub
       || existing.redeemPoints != req.redeemPoints
    then
      Failure(Refused(DuplicateReceipt))
    else
      Success(CommitResult(existing.id, existing.customerId, card.barcode, existing.pointsAfter, existing.earnPoints,
                           existing.redeemPoints, true))
  }

  /** The checks under the lock. */
  function CommitRefusal(row: Customer, req: CommitInput, st: Settings): Option<Code> {
    if Unusable(row).Some? then Unusable(row)
    else CheckRedeem(row.points, req.amountRub, req.redeemPoints, st)
  }

  function CommitTx(t: Tables, card: Customer, req: CommitInput, st: Settings, now: int)
      : (Tables, Result<CommitResult, Error>) {
    if req.receiptId in t.receipts then
      (t, ReplayResult(t.receipts[req.receiptId], card, req))
    else if card.id !in t.customers then
      (t, Failure(NoRows))
    else
      var row := t.customers[card.id];
      var refusal := CommitRefusal(row, req, st);
      if refusal.Some? then (t, Failure(Refused(refusal.value)))
      else (PublishCommit(t, row, req, st, now), Success(FreshResult(row, req, st)))
  }

  predicate GoodInput(req: CommitInput) {
    req.idParses && req.receiptId != "" && req.amountRub >= 0 && req.redeemPoints >= 0
  }

  /** Everything Commit does before its transaction. */
  ghost function CommitPrechecks(t: Tables, req: CommitInput): Result<Customer, Error> {
    if !GoodInput(req) then Failure(Refused(InvalidRequest))
    else
      var c := Resolve(t, req.card);
      if c.Success? && Unusable(c.value).Some? then Failure(Refused(Unusable(c.value).value)) else c
  }

  ghost function Commit(t: Tables, req: CommitInput, st: Settings, now: int): (Tables, Result<CommitResult, Error>) {
    var c := CommitPrechecks(t, req);
    if c.Failure? then (t, Failure(c.error)) else CommitTx(t, c.value, req, st, now)
  }

  // ---- quote and lookup ----------------------------------------------------------------------

  ghost function QuoteCall(t: Tables, card: CardCode, amountRub: int, requested: int, st: Settings)
      : Result<Quote, Error> {
    var c := Resolve(t, card);
    if c.Failure? then Failure(c.error)
    else if Unusable(c.value).Some? then Failure(Refused(Unusable(c.value).value))
    else if amountRub < 0 || requested < 0 then Failure(Refused(InvalidRequest))
    else Success(QuoteRedeem(c.value.points, amountRub, requested, st))
  }

  // ---- refund --------------------------------------------------------------------------------

  /** Points taken back: what was earned, but never below zero. */
  function Reversal(rec: Receipt, points: int): int {
    if rec.earnPoints <= 0 then 0
    else if rec.earnPoints > points then (if points > 0 then points else 0)
    else rec.earnPoints
  }

  function Returned(rec: Receipt): int {
    if rec.redeemPoints > 0 then rec.redeemPoints else 0
  }

  function RefundedPoints(rec: Receipt, points: int): int {
    points - Reversal(rec, points) + Returned(rec)
  }

  function RefundRows(rec: Receipt, points: int, actorId: string, now: int): seq<LedgerRow> {
    (if Reversal(rec, points) == 0 then []
     else [LedgerRow(rec.customerId, NullIfEmpty(rec.id), -Reversal(rec, points), EarnReversed, actorId, now)])
    + (if Returned(rec) == 0 then []
       else [LedgerRow(rec.customerId, NullIfEmpty(rec.id), Returned(rec), RedeemReturned, actorId, now)])
  }

  /** The writes of a refund, computed from the receipt as read and the locked row. */
  function PublishRefund(t: Tables, rec: Receipt, row: Customer, actorId: string, now: int): Tables {
    var points := RefundedPoints(rec, row.points);
    MarkRefunded(Post(t, row.id, RefundRows(rec, row.points, actorId, now), points, now), rec.id, points, now)
  }

  function RefundReplay(rec: Receipt): RefundResult {
    RefundResult(rec.id, rec.customerId,
                 if rec.pointsAfterRefund.Some? then rec.pointsAfterRefund.value else rec.pointsAfter, true)
  }

  function RefundTx(t: Tables, receiptId: string, actorId: string, now: int): (Tables, Result<RefundResult, Error>) {
    if receiptId !in t.receipts then (t, Failure(Refused(InvalidRequest)))
    else
      var rec := t.receipts[receiptId];
      if rec.status == Refunded then (t, Success(RefundReplay(rec)))
      else if rec.customerId !in t.customers then (t, Failure(NoRows))
      else
        var row := t.customers[rec.customerId];
        (PublishRefund(t, rec, row, actorId, now),
         Success(RefundResult(rec.id, rec.customerId, RefundedPoints(rec, row.points), false)))
  }

  function Refund(t: Tables, receiptId: string, idParses: bool, actorId: string, now: int)
      : (Tables, Result<RefundResult, Error>) {
    if !idParses then (t, Failure(Refused(InvalidRequest))) else RefundTx(t, receiptId, actorId, now)
  }

  // ---- adjust --------------------------------------------------------------------------------

  function PublishAdjust(t: Tables, row: Customer, delta: int, reason: string, actorId: string, now: int): Tables {
    Post(t, row.id, [LedgerRow(row.id, None, delta, Adjusted(reason), actorId, now)], row.points + delta, now)
  }

  function AdjustTx(t: Tables, card: Customer, delta: int, reason: string, actorId: string, now: int)
      : (Tables, Result<Customer, Error>) {
    if card.id !in t.customers then (t, Failure(NoRows))
    else
      var row := t.customers[card.id];
      if row.points + delta < 0 then (t, Failure(Refused(InsufficientPoints)))
      else (PublishAdjust(t, row, delta, reason, actorId, now),
            Success(card.(points := row.points + delta, updatedAt := now)))
  }

  ghost function AdjustPrechecks(t: Tables, card: CardCode, reasonBlank: bool): Result<Customer, Error> {
    if reasonBlank then Failure(Refused(InvalidRequest))
    else
      var c := Resolve(t, card);
      if c.Success? && c.value.deletedAt.Some? then Failure(Refused(CustomerDeleted)) else c
  }

  ghost function Adjust(t: Tables, card: CardCode, delta: int, reason: string, reasonBlank: bool,
                        actorId: string, now: int)
      : (Tables, Result<Customer, Error>) {
    var c := AdjustPrechecks(t, card, reasonBlank);
    if c.Failure? then (t, Failure(c.error)) else AdjustTx(t, c.value, delta, reason, actorId, now)
  }

  // ---- new cards -----------------------------------------------------------------------------

  const CROCKFORD := "0123456789ABCDEFGHJKMNPQRSTVWXYZ"

  /** What barcode.New can return. */
  predicate BarcodeShaped(code: string) {
    |code| == 12 && "MCH-" <= code && forall i :: 4 <= i < 12 ==> code[i] in CROCKFORD
  }

  predicate Issuable(row: Customer) {
    BarcodeShaped(row.barcode) && IsValidPhone(row.phone)
  }

  // ---- single statements on customers --------------------------------------------------------

  /** The unique columns of a new customer row are still free. */
  predicate Insertable(t: Tables, row: Customer) {
    && row.id !in t.customers
    && (forall id :: id in t.customers ==> t.customers[id].barcode != row.barcode)
    && (row.phone == "" || forall id :: id in t.customers ==> t.customers[id].phone != row.phone)
  }

  function CreateCustomer(t: Tables, row: Customer): (Tables, bool) {
    if Insertable(t, row) then
      (t.(customers := t.customers[row.id := row.(points := 0, blocked := false, deletedAt := None)]), true)
    else (t, false)
  }

  function SetBlocked(t: Tables, id: string, blocked: bool, now: int): (Tables, bool) {
    if id !in t.customers then (t, false)
    else (t.(customers := t.customers[id := t.customers[id].(blocked := blocked, updatedAt := now)]), true)
  }

  function SetDeleted(t: Tables, id: string, deleted: bool, now: int): (Tables, bool) {
    if id !in t.customers then (t, false)
    else (t.(customers := t.customers[id :=
               t.customers[id].(deletedAt := if deleted then Some(now) else None, updatedAt := now)]), true)
  }

  // ---- enrolment -----------------------------------------------------------------------------

  datatype EnrollInput = EnrollInput(name: string, phone: string, cookieId: string)

  predicate BearsPhone(t: Tables, id: string, phone: string) {
    id in t.customers && t.customers[id].phone == phone
  }

  ghost function ByPhone(t: Tables, phone: string): Option<Customer> {
    if phone != "" && exists id :: BearsPhone(t, id, phone) then
      var id :| BearsPhone(t, id, phone);
      Some(t.customers[id])
    else None
  }

  /** The found card, unless it is deleted. */
  function Existing(c: Customer): Result<(Customer, bool), Error> {
    if c.deletedAt.Some? then Failure(Refused(CustomerDeleted)) else Success((c, false))
  }

  function NewCustomer(id: string, barcode: string, name: string, phone: string, now: int): Customer {
    Customer(id, barcode, name, phone, 0, false, now, now, None)
  }

  /** The answer is the card and whether it was created; id and barcode are freshly drawn. */
  ghost function Enroll(t: Tables, input: EnrollInput, isDigit: char -> bool, id: string, barcode: string, now: int)
      : (Tables, Result<(Customer, bool), Error>) {
    var name := TrimSpace(input.name);
    var phone := Normalized(input.phone, isDigit);
    if input.cookieId != "" && input.cookieId in t.customers then (t, Existing(t.customers[input.cookieId]))
    else if name == "" || !IsValidPhone(phone) then (t, Failure(Refused(InvalidRequest)))
    else if ByPhone(t, phone).Some? then (t, Existing(ByPhone(t, phone).value))
    else
      var row := NewCustomer(id, barcode, name, phone, now);
      var (u, ok) := CreateCustomer(t, row);
      if ok then (u, Success((row, true))) else (t, Failure(Violation))
  }

  // ---- serial runs ---------------------------------------------------------------------------

  datatype Op =
    | CommitOp(card: Customer, req: CommitInput, st: Settings, now: int)
    | RefundOp(receiptId: string, actorId: string, now: int)
    | AdjustOp(card: Customer, delta: int, reason: string, actorId: string, now: int)
    | CreateOp(row: Customer)
    | BlockOp(id: string, blocked: bool, now: int)
    | DeleteOp(id: string, deleted: bool, now: int)

  datatype Answer =
    | CommitAnswer(commit: Result<CommitResult, Error>)
    | RefundAnswer(refund: Result<RefundResult, Error>)
    | AdjustAnswer(adjust: Result<Customer, Error>)
    | RowAnswer(ok: bool)

  /** Run a transaction alone. */
  function Perform(t: Tables, op: Op): (Tables, Answer) {
    match op
    case CommitOp(card, req, st, now) => var (t', r) := CommitTx(t, card, req, st, now); (t', CommitAnswer(r))
    case RefundOp(receiptId, actorId, now) => var (t', r) := RefundTx(t, receiptId, actorId, now); (t', RefundAnswer(r))
    case AdjustOp(card, delta, reason, actorId, now) =>
      var (t', r) := AdjustTx(t, card, delta, reason, actorId, now); (t', AdjustAnswer(r))
    case CreateOp(row) => var (t', ok) := CreateCustomer(t, row); (t', RowAnswer(ok))
    case BlockOp(id, blocked, now) => var (t', ok) := SetBlocked(t, id, blocked, now); (t', RowAnswer(ok))
    case DeleteOp(id, deleted, now) => var (t', ok) := SetDeleted(t, id, deleted, now); (t', RowAnswer(ok))
  }

  /**
   What the service lets into a transaction: a commit's input has passed the checks on its form,
   and a new customer has a barcode from barcode.New and a valid phone.
   */
  predicate Admissible(op: Op) {
    match op
    case CommitOp(_, req, _, _) => GoodInput(req)
    case CreateOp(row) => Issuable(row)
    case _ => true
  }

  /** Transactions one at a time, in order. */
  function RunSerial(t: Tables, ops: seq<Op>): Tables {
    if ops == [] then t else Perform(RunSerial(t, ops[..|ops| - 1]), ops[|ops| - 1]).0
  }

  predicate AllAdmissible(ops: seq<Op>) {
    forall i :: 0 <= i < |ops| ==> Admissible(ops[i])
  }
}
