/** Laws over whole serial runs: idempotent replay, the receipt's life, refunds, conservation. */
module SerialLaws {
  import opened LedgerLaws
  import opened Phone
  import opened Rules
  import opened RulesLaws
  import opened Tables
  import opened Decimal
  import opened Wrappers

  // ---- a scanned code keeps naming the same customer -------------------------------------------

  /** A code that reads as a customer id never reads as a barcode; UUIDs and issued barcodes differ in form. */
  predicate Unambiguous(card: CardCode) {
    card.customerId.Some? ==> !BarcodeShaped(card.barcode)
  }

  lemma BarcodeNamesOne(t: Tables, id: string)
    requires Consistent(t) && id in t.customers
    ensures ByBarcode(t, t.customers[id].barcode) == Some(t.customers[id])
  {
    assert Bears(t, id, t.customers[id].barcode);
    forall other | Bears(t, other, t.customers[id].barcode) ensures other == id {
      assert NoClash(t.customers, other, id);
    }
  }

  lemma ResolvedIsStored(t: Tables, card: CardCode)
    requires Consistent(t) && Resolve(t, card).Success?
    ensures var c := Resolve(t, card).value; c.id in t.customers && t.customers[c.id] == c
  {
  }

  lemma ResolutionIsStable(t: Tables, u: Tables, card: CardCode)
    requires Consistent(t) && Consistent(u) && Preserves(t, u) && Unambiguous(card)
    requires Resolve(t, card).Success?
    ensures var c := Resolve(t, card).value; c.id in u.customers && Resolve(u, card) == Success(u.customers[c.id])
  {
    ResolvedIsStored(t, card);
    var c := Resolve(t, card).value;
    if ByBarcode(t, card.barcode).Some? {
      BarcodeNamesOne(u, c.id);
    } else {
      forall id ensures !Bears(u, id, card.barcode) {
        if id in u.customers {
          assert CardIssued(u.customers, id);
        }
      }
    }
  }

  // ---- idempotent replay -----------------------------------------------------------------------

  lemma CommitIsAdmissibleOrIdle(t: Tables, req: CommitInput, st: Settings, now: int)
    requires Consistent(t)
    ensures var u := Commit(t, req, st, now).0; Consistent(u) && Preserves(t, u)
  {
    PreservesItself(t);
    var c := CommitPrechecks(t, req);
    if c.Success? {
      PerformKeepsConsistent(t, CommitOp(c.value, req, st, now));
    }
  }

  /** What a successful commit answered is what its stored receipt says. */
  lemma AnswerIsStored(t: Tables, req: CommitInput, st: Settings, now: int)
    requires Consistent(t) && Commit(t, req, st, now).1.Success?
    ensures var (u, r) := Commit(t, req, st, now);
            var c := Resolve(t, req.card).value;
            && req.receiptId in u.receipts && c.id in t.customers
            && r.value.customerId == c.id && r.value.barcode == c.barcode && r.value.receiptId == req.receiptId
            && var rec := u.receipts[req.receiptId];
               && rec.customerId == c.id && rec.amountRub == req.amountRub && rec.redeemPoints == req.redeemPoints
               && r.value.points == rec.pointsAfter && r.value.earnPoints == rec.earnPoints
               && r.value.redeemPoints == rec.redeemPoints
  {
    ResolvedIsStored(t, req.card);
  }

  /**
   After a successful commit, in any later state of any serial run, the same request under any
   settings changes nothing; it answers with the original data exactly when the card is still
   usable, and otherwise says why it is not.
   */
  lemma {:induction false} ReplayAnyLater(t: Tables, req: CommitInput, st: Settings, now: int,
                                          ops: seq<Op>, st': Settings, now': int)
    requires Consistent(t) && AllAdmissible(ops) && Unambiguous(req.card)
    requires Commit(t, req, st, now).1.Success?
    ensures var (t1, r) := Commit(t, req, st, now);
            var u := RunSerial(t1, ops);
            && r.value.customerId in u.customers
            && var why := Unusable(u.customers[r.value.customerId]);
               Commit(u, req, st', now') ==
                 (u, if why.None? then Success(r.value.(idempotentReplay := true)) else Failure(Refused(why.value)))
  {
    var (t1, r) := Commit(t, req, st, now);
    var u := RunSerial(t1, ops);
    CommitIsAdmissibleOrIdle(t, req, st, now);
    RunKeepsConsistent(t1, ops);
    PreservesTransitive(t, t1, u);
    AnswerIsStored(t, req, st, now);
    ResolutionIsStable(t, u, req.card);
    assert SameSale(t1.receipts[req.receiptId], u.receipts[req.receiptId]);
  }

  /**
   Any later request under the same receipt id that passes the checks before the transaction
   changes nothing, and is answered only when customer, amount and redemption are the original ones.
   */
  lemma ReuseIsDecidedByTheReceipt(t: Tables, req: CommitInput, st: Settings, now: int, ops: seq<Op>,
                                                      again: CommitInput, st': Settings, now': int)
    requires Consistent(t) && AllAdmissible(ops)
    requires Commit(t, req, st, now).1.Success? && again.receiptId == req.receiptId
    requires CommitPrechecks(RunSerial(Commit(t, req, st, now).0, ops), again).Success?
    ensures var (t1, r) := Commit(t, req, st, now);
            var u := RunSerial(t1, ops);
            var same := CommitPrechecks(u, again).value.id == r.value.customerId
                        && again.amountRub == req.amountRub && again.redeemPoints == req.redeemPoints;
            && Commit(u, again, st', now').0 == u
            && (Commit(u, again, st', now').1.Success? <==> same)
            && (!same ==> Commit(u, again, st', now').1 == Failure(Refused(DuplicateReceipt)))
  {
    var (t1, r) := Commit(t, req, st, now);
    var u := RunSerial(t1, ops);
    CommitIsAdmissibleOrIdle(t, req, st, now);
    RunKeepsConsistent(t1, ops);
    AnswerIsStored(t, req, st, now);
    assert SameSale(t1.receipts[req.receiptId], u.receipts[req.receiptId]);
  }

  // ---- the quote predicts the commit -----------------------------------------------------------

  /**
   From one state and any settings, a commit under a fresh valid receipt id succeeds exactly when the
   quote is allowed, with the quoted amounts and the balance they imply; otherwise it is refused
   with the code the quote gave.
   */
  lemma QuotePredictsCommit(t: Tables, req: CommitInput, settings: map<string, string>, now: int)
    requires Consistent(t) && req.idParses && req.receiptId != "" && req.receiptId !in t.receipts
    ensures var st := ParseSettings(settings);
            var q := QuoteCall(t, req.card, req.amountRub, req.redeemPoints, st);
            var (u, r) := Commit(t, req, st, now);
            && (r.Success? <==> q.Success? && q.value.allowed)
            && (r.Success? ==>
                  && !r.value.idempotentReplay
                  && r.value.redeemPoints == q.value.redeemPoints && r.value.earnPoints == q.value.earnPoints
                  && r.value.points == q.value.currentPoints - q.value.redeemPoints + q.value.earnPoints
                  && r.value.customerId in u.customers && u.customers[r.value.customerId].points == r.value.points)
            && (r.Failure? ==> u == t)
            && (req.amountRub >= 0 && req.redeemPoints >= 0 ==>
                  && (q.Failure? ==> r == Failure(q.error))
                  && (q.Success? && !q.value.allowed ==> r == Failure(Refused(q.value.code.value))))
  {
    var st := ParseSettings(settings);
    assert st.WithDefaults().WithDefaults() == st.WithDefaults();
    if Resolve(t, req.card).Success? {
      ResolvedIsStored(t, req.card);
    }
  }

  // ---- the life of a receipt -------------------------------------------------------------------

  /** 0 absent, 1 committed, 2 refunded. */
  function Stage(t: Tables, receiptId: string): nat {
    if receiptId !in t.receipts then 0 else if t.receipts[receiptId].status == Committed then 1 else 2
  }

  /** One transaction moves a receipt one stage at most, and only its own commit or refund does. */
  lemma StageAdvancesOneAtATime(t: Tables, op: Op, id: string)
    requires Consistent(t) && Admissible(op)
    ensures var before, after := Stage(t, id), Stage(Perform(t, op).0, id);
            && before <= after <= before + 1
            && (after != before ==> if before == 0 then op.CommitOp? && op.req.receiptId == id
                                    else op.RefundOp? && op.receiptId == id)
  {
  }

  lemma {:induction false} StageNeverFalls(t: Tables, ops: seq<Op>, id: string)
    requires Consistent(t) && AllAdmissible(ops)
    ensures Stage(t, id) <= Stage(RunSerial(t, ops), id)
  {
    RunKeepsConsistent(t, ops);
  }

  lemma PerformLeavesRefunded(t: Tables, op: Op, id: string)
    requires ReceiptsKeyed(t.receipts, t.customers) && Stage(t, id) == 2
    ensures id in Perform(t, op).0.receipts && Perform(t, op).0.receipts[id] == t.receipts[id]
  {
  }

  lemma {:induction false} RefundedStaysAsItIs(t: Tables, ops: seq<Op>, id: string)
    requires Consistent(t) && AllAdmissible(ops) && Stage(t, id) == 2
    ensures id in RunSerial(t, ops).receipts && RunSerial(t, ops).receipts[id] == t.receipts[id]
  {
    if ops != [] {
      var front, op := ops[..|ops| - 1], ops[|ops| - 1];
      RefundedStaysAsItIs(t, front, id);
      RunKeepsConsistent(t, front);
      PerformLeavesRefunded(RunSerial(t, front), op, id);
    }
  }

  /** A refund repeated after any run answers with the first one's points and changes nothing. */
  lemma RefundReplayAnyLater(t: Tables, id: string, actor: string, now: int, ops: seq<Op>, actor': string, now': int)
    requires Consistent(t) && AllAdmissible(ops)
    requires RefundTx(t, id, actor, now).1.Success?
    ensures var (t1, r) := RefundTx(t, id, actor, now);
            var u := RunSerial(t1, ops);
            RefundTx(u, id, actor', now') == (u, Success(r.value.(idempotentReplay := true)))
  {
    var (t1, r) := RefundTx(t, id, actor, now);
    PerformKeepsConsistent(t, RefundOp(id, actor, now));
    assert Perform(t, RefundOp(id, actor, now)).0 == t1;
    RefundedStaysAsItIs(t1, ops, id);
  }

  /** A refund right after its commit puts the balance back exactly. */
  lemma RefundRestoresBalance(t: Tables, card: Customer, req: CommitInput, st: Settings, now: int, actor: string,
                              now': int)
    requires Consistent(t) && GoodInput(req) && req.receiptId !in t.receipts
    requires CommitTx(t, card, req, st, now).1.Success?
    ensures var t1 := CommitTx(t, card, req, st, now).0;
            var (t2, r) := RefundTx(t1, req.receiptId, actor, now');
            && r == Success(RefundResult(req.receiptId, card.id, t.customers[card.id].points, false))
            && t2.customers.Keys == t.customers.Keys
            && forall id :: id in t.customers ==> t2.customers[id].points == t.customers[id].points
  {
    EarnNonNegative(req.amountRub, req.redeemPoints, st);
    PointsNonNegative(t, card.id);
  }

  // ---- enrolment -------------------------------------------------------------------------------

  lemma PhoneNamesOne(t: Tables, id: string)
    requires Consistent(t) && id in t.customers
    ensures ByPhone(t, t.customers[id].phone) == Some(t.customers[id])
  {
    assert BearsPhone(t, id, t.customers[id].phone);
    assert CardIssued(t.customers, id);
    forall other | BearsPhone(t, other, t.customers[id].phone) ensures other == id {
      assert NoClash(t.customers, other, id);
    }
  }

  lemma EnrollKeepsConsistent(t: Tables, input: EnrollInput, isDigit: char -> bool, id: string, barcode: string,
                              now: int)
    requires Consistent(t) && BarcodeShaped(barcode)
    ensures var (u, r) := Enroll(t, input, isDigit, id, barcode, now);
            && Consistent(u) && Preserves(t, u)
            && (r.Success? ==> r.value.0.id in u.customers && u.customers[r.value.0.id] == r.value.0)
            && (r.Success? && input.cookieId == "" ==> r.value.0.phone == Normalized(input.phone, isDigit))
            && (!(r.Success? && r.value.1) ==> u == t)
  {
    PreservesItself(t);
    var row := NewCustomer(id, barcode, TrimSpace(input.name), Normalized(input.phone, isDigit), now);
    if IsValidPhone(row.phone) {
      PerformKeepsConsistent(t, CreateOp(row));
    }
  }

  /**
   Enrolling again with a text of the same ten digits, however it is written and whatever ran in
   between, never issues a second card: it finds the first one, or says that it was deleted.
   */
  lemma SameDigitsSameCard(t: Tables, input: EnrollInput, again: EnrollInput, isDigit: char -> bool,
                                              id: string, barcode: string, now: int, ops: seq<Op>,
                                              id': string, barcode': string, now': int)
    requires Consistent(t) && BarcodeShaped(barcode) && AllAdmissible(ops) && Faithful(isDigit)
    requires input.cookieId == again.cookieId == "" && TrimSpace(again.name) != ""
    requires IsAscii(input.phone) && IsAscii(again.phone)
    requires NationalNumber(input.phone).Some? && NationalNumber(input.phone) == NationalNumber(again.phone)
    requires Enroll(t, input, isDigit, id, barcode, now).1.Success?
    ensures var (t1, r) := Enroll(t, input, isDigit, id, barcode, now);
            var u := RunSerial(t1, ops);
            && r.value.0.id in u.customers
            && Enroll(u, again, isDigit, id', barcode', now') == (u, Existing(u.customers[r.value.0.id]))
  {
    var (t1, r) := Enroll(t, input, isDigit, id, barcode, now);
    EnrollKeepsConsistent(t, input, isDigit, id, barcode, now);
    RunKeepsConsistent(t1, ops);
    SamePhoneExactlyWithSameDigits(input.phone, again.phone, isDigit);
    PhoneNamesOne(RunSerial(t1, ops), r.value.0.id);
  }

  // ---- conservation ----------------------------------------------------------------------------

  /** The tables, and for each refunded receipt the balance its refund found. */
  datatype Books = Books(tables: Tables, atRefund: map<string, int>)

  function Audit(b: Books, op: Op): Books {
    var t := b.tables;
    Books(Perform(t, op).0,
          if op.RefundOp? && Stage(t, op.receiptId) == 1 && t.receipts[op.receiptId].customerId in t.customers then
            b.atRefund[op.receiptId := t.customers[t.receipts[op.receiptId].customerId].points]
          else b.atRefund)
  }

  function RunAudited(ops: seq<Op>): Books {
    if ops == [] then Books(NO_ROWS, map[]) else Audit(RunAudited(ops[..|ops| - 1]), ops[|ops| - 1])
  }

  lemma {:induction false} AuditFollowsRun(ops: seq<Op>)
    ensures RunAudited(ops).tables == RunSerial(NO_ROWS, ops)
  {
    if ops != [] {
      AuditFollowsRun(ops[..|ops| - 1]);
    }
  }

  /** What a receipt leaves on its customer's balance. */
  function Contribution(b: Books, id: string): int
    requires id in b.tables.receipts
  {
    var rec := b.tables.receipts[id];
    if rec.status == Committed then rec.earnPoints - rec.redeemPoints
    else Max0(rec.earnPoints - if id in b.atRefund then b.atRefund[id] else 0)
  }

  /** The receipt's ledger rows sum to its contribution. */
  ghost predicate NetsTo(b: Books, id: string) {
    id in b.tables.receipts ==> Total(b.tables.ledger, OfReceipt(id)) == Contribution(b, id)
  }

  lemma PostedElsewhere(ledger: seq<LedgerRow>, rows: seq<LedgerRow>, id: string)
    requires forall i :: 0 <= i < |rows| ==> rows[i].receiptId != Some(id)
    ensures Total(ledger + rows, OfReceipt(id)) == Total(ledger, OfReceipt(id))
  {
    TotalConcat(ledger, rows, OfReceipt(id));
    NothingTotalsZero(rows, OfReceipt(id));
  }

  lemma NoRowsBeforeCommit(t: Tables, id: string)
    requires Consistent(t) && id !in t.receipts
    ensures Total(t.ledger, OfReceipt(id)) == 0
  {
    forall i | 0 <= i < |t.ledger| ensures !Matches(t.ledger[i], OfReceipt(id)) {
      assert RowKeyed(t.ledger[i], t.receipts, t.customers);
    }
    NothingTotalsZero(t.ledger, OfReceipt(id));
  }

  lemma CommitNets(b: Books, row: Customer, req: CommitInput, st: Settings, now: int, id: string)
    requires Consistent(b.tables) && MayPublishCommit(b.tables, row, req, st) && NetsTo(b, id)
    ensures NetsTo(b.(tables := PublishCommit(b.tables, row, req, st, now)), id)
  {
    var t := b.tables;
    var rec := CommitReceipt(row, req, st, now);
    PointsNonNegative(t, row.id);
    CommitShape(t, row, req, st, now);
    CommitRowsTotals(rec, now, OfReceipt(id));
    TotalConcat(t.ledger, CommitRows(rec, now), OfReceipt(id));
    if id == rec.id {
      NoRowsBeforeCommit(t, id);
    }
  }

  lemma RefundShape(t: Tables, rec: Receipt, row: Customer, actor: string, now: int, id: string)
    requires rec.id in t.receipts && row.id in t.customers
    ensures var u := PublishRefund(t, rec, row, actor, now);
            && u.ledger == t.ledger + RefundRows(rec, row.points, actor, now)
            && (id in u.receipts <==> id in t.receipts)
            && (id in t.receipts && id != rec.id ==> u.receipts[id] == t.receipts[id])
            && u.receipts[rec.id].status == Refunded && SameSale(t.receipts[rec.id], u.receipts[rec.id])
  {
  }

  lemma RefundRowsNet(ledger: seq<LedgerRow>, rec: Receipt, points: int, actor: string, now: int, id: string)
    requires rec.id != "" && points >= 0 && rec.earnPoints >= 0 && rec.redeemPoints >= 0
    ensures Total(ledger + RefundRows(rec, points, actor, now), OfReceipt(id))
         == Total(ledger, OfReceipt(id)) + if id == rec.id then RefundedPoints(rec, points) - points else 0
  {
    RefundRowsTotals(rec, points, actor, now, OfReceipt(id));
    TotalConcat(ledger, RefundRows(rec, points, actor, now), OfReceipt(id));
  }

  lemma RefundNets(b: Books, rec: Receipt, actor: string, now: int, id: string)
    requires Consistent(b.tables) && rec.id in b.tables.receipts && b.tables.receipts[rec.id] == rec
        && rec.status == Committed
    requires NetsTo(b, id)
    ensures var row := b.tables.customers[rec.customerId];
            NetsTo(Books(PublishRefund(b.tables, rec, row, actor, now), b.atRefund[rec.id := row.points]), id)
  {
    var t := b.tables;
    var row := t.customers[rec.customerId];
    PointsNonNegative(t, row.id);
    RefundShape(t, rec, row, actor, now, id);
    RefundRowsNet(t.ledger, rec, row.points, actor, now, id);
  }

  lemma AdjustNets(b: Books, row: Customer, delta: int, reason: string, actor: string, now: int, id: string)
    requires row.id in b.tables.customers && NetsTo(b, id)
    ensures NetsTo(b.(tables := PublishAdjust(b.tables, row, delta, reason, actor, now)), id)
  {
    PostedElsewhere(b.tables.ledger, [LedgerRow(row.id, None, delta, Adjusted(reason), actor, now)], id);
  }

  lemma AuditKeepsNets(b: Books, op: Op, id: string)
    requires Consistent(b.tables) && Admissible(op) && NetsTo(b, id)
    ensures NetsTo(Audit(b, op), id)
  {
    var t := b.tables;
    match op
    case CommitOp(card, req, st, now) =>
      if Perform(t, op).0 != t {
        CommitNets(b, t.customers[card.id], req, st, now, id);
      }
    case RefundOp(rid, actor, now) =>
      if Stage(t, rid) == 1 {
        RefundNets(b, t.receipts[rid], actor, now, id);
      }
    case AdjustOp(card, delta, reason, actor, now) =>
      if Perform(t, op).0 != t {
        AdjustNets(b, t.customers[card.id], delta, reason, actor, now, id);
      }
    case _ =>
  }

  /**
   Over all serial runs: a committed receipt's rows sum to earn minus redeem, a refunded one's to
   what its refund could not take back.
   */
  lemma {:induction false} ReceiptsConserve(ops: seq<Op>, id: string)
    requires AllAdmissible(ops)
    ensures NetsTo(RunAudited(ops), id)
  {
    if ops != [] {
      var front := ops[..|ops| - 1];
      ReceiptsConserve(front, id);
      AuditFollowsRun(front);
      EmptyIsConsistent();
      RunKeepsConsistent(NO_ROWS, front);
      AuditKeepsNets(RunAudited(front), ops[|ops| - 1], id);
    }
  }

  /** A refund leaves no net effect of its receipt exactly when it finds at least the earned points. */
  lemma RefundRemovesNetEffect(ops: seq<Op>, id: string, actor: string, now: int)
    requires AllAdmissible(ops) && Stage(RunAudited(ops).tables, id) == 1
    ensures var t := RunAudited(ops).tables;
            && t.receipts[id].customerId in t.customers
            && (Total(Audit(RunAudited(ops), RefundOp(id, actor, now)).tables.ledger, OfReceipt(id)) == 0
                <==> t.customers[t.receipts[id].customerId].points >= t.receipts[id].earnPoints)
  {
    var b, op := RunAudited(ops), RefundOp(id, actor, now);
    ReceiptsConserve(ops, id);
    AuditFollowsRun(ops);
    EmptyIsConsistent();
    RunKeepsConsistent(NO_ROWS, ops);
    AuditKeepsNets(b, op, id);
    assert Stage(Audit(b, op).tables, id) == 2;
    assert Audit(b, op).tables.receipts[id].earnPoints == b.tables.receipts[id].earnPoints;
  }

  // ---- the balance as a sum over receipts -------------------------------------------------------

  ghost function SumOver(m: map<string, int>): int {
    if m == map[] then 0
    else
      var k :| k in m;
      m[k] + SumOver(m - {k})
  }

  lemma {:induction false} SumWithout(m: map<string, int>, k: string)
    requires k in m
    ensures SumOver(m) == m[k] + SumOver(m - {k})
    decreases |m|
  {
    var x :| x in m && SumOver(m) == m[x] + SumOver(m - {x});
    if x != k {
      SumWithout(m - {x}, k);
      SumWithout(m - {k}, x);
      assert m - {x} - {k} == m - {k} - {x};
    }
  }

  lemma {:induction false} SumOfZeros(m: map<string, int>)
    requires forall k :: k in m ==> m[k] == 0
    ensures SumOver(m) == 0
    decreases |m|
  {
    if m != map[] {
      var k :| k in m;
      SumWithout(m, k);
      SumOfZeros(m - {k});
    }
  }

  function ReceiptsOf(t: Tables, customerId: string): set<string> {
    set id | id in t.receipts && t.receipts[id].customerId == customerId
  }

  ghost function Nets(ledger: seq<LedgerRow>, ids: set<string>): map<string, int> {
    map id | id in ids :: Total(ledger, OfReceipt(id))
  }

  /** A customer's ledger sum is the adjusts plus, receipt by receipt, the rows of its receipts. */
  lemma {:induction false} LedgerByReceipt(ledger: seq<LedgerRow>, c: string, ids: set<string>)
    requires forall i :: 0 <= i < |ledger| && ledger[i].receiptId.Some? ==>
               (ledger[i].receiptId.value in ids <==> ledger[i].customerId == c)
    ensures Total(ledger, OfCustomer(c)) == Total(ledger, AdjustsOf(c)) + SumOver(Nets(ledger, ids))
  {
    if ledger == [] {
      SumOfZeros(Nets(ledger, ids));
    } else {
      var front, row := ledger[..|ledger| - 1], ledger[|ledger| - 1];
      LedgerByReceipt(front, c, ids);
      var m, m' := Nets(front, ids), Nets(ledger, ids);
      if row.receiptId.Some? && row.receiptId.value in ids {
        var k := row.receiptId.value;
        SumWithout(m, k);
        SumWithout(m', k);
        assert m - {k} == m' - {k};
      } else {
        assert m == m';
      }
    }
  }

  ghost function Contributions(b: Books, customerId: string): map<string, int> {
    map id | id in ReceiptsOf(b.tables, customerId) :: Contribution(b, id)
  }

  /**
   Over all serial runs a balance is the customer's adjusts plus, over the customer's receipts, earn
   minus redeem of the live ones and the shortfalls of the refunded ones.
   */
  lemma BalanceIsConserved(ops: seq<Op>, c: string)
    requires AllAdmissible(ops) && c in RunAudited(ops).tables.customers
    ensures var b := RunAudited(ops);
            b.tables.customers[c].points == Total(b.tables.ledger, AdjustsOf(c)) + SumOver(Contributions(b, c))
  {
    var b := RunAudited(ops);
    var t := b.tables;
    AuditFollowsRun(ops);
    EmptyIsConsistent();
    RunKeepsConsistent(NO_ROWS, ops);
    assert BalanceAgrees(t.customers, t.ledger, c);
    forall i | 0 <= i < |t.ledger| && t.ledger[i].receiptId.Some?
      ensures t.ledger[i].receiptId.value in ReceiptsOf(t, c) <==> t.ledger[i].customerId == c
    {
      assert RowKeyed(t.ledger[i], t.receipts, t.customers);
    }
    LedgerByReceipt(t.ledger, c, ReceiptsOf(t, c));
    forall id | id in ReceiptsOf(t, c) ensures Total(t.ledger, OfReceipt(id)) == Contribution(b, id) {
      ReceiptsConserve(ops, id);
    }
    assert Nets(t.ledger, ReceiptsOf(t, c)) == Contributions(b, c);
  }
}
