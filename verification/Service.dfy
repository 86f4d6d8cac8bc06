/**
 The service and its store as they run on one connection: objects whose methods change rows in
 place, statement by statement, each proved against the transaction functions of Tables. Any
 statement of a transaction may break; then the transaction leaves the tables as it found them.
 */
module Service {
  import opened Decimal
  import opened LedgerLaws
  import opened Phone
  import opened Rules
  import opened RulesLaws
  import opened SerialLaws
  import T = Tables
  import opened Wrappers

  class Store {
    var customers: map<string, T.Customer>
    var receipts: map<string, T.Receipt>
    var ledger: seq<T.LedgerRow>
    var settings: map<string, string>

    function Rows(): T.Tables
      reads this
    {
      T.Tables(customers, receipts, ledger)
    }

    ghost predicate Valid()
      reads this
    {
      Consistent(Rows())
    }

    constructor ()
      ensures Valid() && Rows() == T.NO_ROWS && settings == map[]
    {
      customers, receipts, ledger, settings := map[], map[], [], map[];
    }

    // ---- queries ----

    method GetCustomerByID(id: string) returns (c: Option<T.Customer>)
      ensures c == if id in customers then Some(customers[id]) else None
    {
      c := if id in customers then Some(customers[id]) else None;
    }

    method GetCustomerByBarcode(barcode: string) returns (c: Option<T.Customer>)
      requires Valid()
      ensures c == T.ByBarcode(Rows(), barcode)
    {
      if id :| id in customers && customers[id].barcode == barcode {
        BarcodeNamesOne(Rows(), id);
        c := Some(customers[id]);
      } else {
        assert forall id :: !T.Bears(Rows(), id, barcode);
        c := None;
      }
    }

    method GetCustomerByPhone(phone: string) returns (c: Option<T.Customer>)
      requires Valid()
      ensures c == T.ByPhone(Rows(), phone)
    {
      if phone == "" {
        return None;
      }
      if id :| id in customers && customers[id].phone == phone {
        PhoneNamesOne(Rows(), id);
        c := Some(customers[id]);
      } else {
        assert forall id :: !T.BearsPhone(Rows(), id, phone);
        c := None;
      }
    }

    // ---- single statements ----

    method CreateCustomer(row: T.Customer) returns (ok: bool)
      requires Valid() && T.Issuable(row)
      modifies this`customers
      ensures Valid() && (Rows(), ok) == T.CreateCustomer(old(Rows()), row)
    {
      CustomerStatementsKeepConsistent(Rows(), T.CreateOp(row));
      ok := T.Insertable(Rows(), row);
      if ok {
        customers := customers[row.id := row.(points := 0, blocked := false, deletedAt := None)];
      }
    }

    method SetCustomerBlocked(id: string, blocked: bool, now: int) returns (ok: bool)
      requires Valid()
      modifies this`customers
      ensures Valid() && (Rows(), ok) == T.SetBlocked(old(Rows()), id, blocked, now)
    {
      CustomerStatementsKeepConsistent(Rows(), T.BlockOp(id, blocked, now));
      ok := id in customers;
      if ok {
        customers := customers[id := customers[id].(blocked := blocked, updatedAt := now)];
      }
    }

    method SetCustomerDeleted(id: string, deleted: bool, now: int) returns (ok: bool)
      requires Valid()
      modifies this`customers
      ensures Valid() && (Rows(), ok) == T.SetDeleted(old(Rows()), id, deleted, now)
    {
      CustomerStatementsKeepConsistent(Rows(), T.DeleteOp(id, deleted, now));
      ok := id in customers;
      if ok {
        var deletedAt := if deleted then Some(now) else None;
        customers := customers[id := customers[id].(deletedAt := deletedAt, updatedAt := now)];
      }
    }

    /** Upserts the pairs in any order; a statement that breaks part-way rolls all of them back. */
    method PutSettings(kv: map<string, string>, breakAt: Option<nat>) returns (error: Option<T.Error>)
      modifies this`settings
      ensures error.None? ==> settings == old(settings) + kv
      ensures error.Some? ==> settings == old(settings)
      ensures error.None? <==> breakAt.None? || breakAt.value >= |kv|
    {
      var snapshot := settings;
      var todo := kv.Keys;
      var done := 0;
      UpsertsStart(snapshot, kv);
      while todo != {}
        invariant todo <= kv.Keys && done == |kv| - |todo|
        invariant breakAt.None? || breakAt.value >= done
        invariant settings == Upserted(snapshot, kv, todo)
        decreases |todo|
      {
        if breakAt == Some(done) {
          settings := snapshot;
          return Some(T.Broken);
        }
        var k :| k in todo;
        OneUpsert(snapshot, kv, todo, k);
        settings := settings[k := kv[k]];
        todo := todo - {k};
        done := done + 1;
      }
      UpsertsEnd(snapshot, kv);
      return None;
    }

    // ---- transactions ----

    /**
     The closures InTx is called with are the bodies of Commit, Refund and Adjust. The statement
     breakAt counts to, or the closing COMMIT, breaks; without it nothing does.
     */
    method InTx(op: T.Op, breakAt: Option<nat>) returns (answer: T.Answer)
      requires Valid() && T.Admissible(op) && (op.CommitOp? || op.RefundOp? || op.AdjustOp?)
      modifies this`customers, this`receipts, this`ledger
      ensures Valid()
      ensures Answers(op, answer)
      ensures Broke(answer) ==> breakAt.Some? && Rows() == old(Rows())
      ensures !Broke(answer) ==> (Rows(), answer) == T.Perform(old(Rows()), op)
    {
      PerformKeepsConsistent(Rows(), op);
      var tx := new Tx(this, breakAt);
      answer := tx.Run(op);
      if Failed(answer) {
        tx.Rollback();
      } else {
        var broken := tx.Breaks();
        if broken {
          tx.Rollback();
          answer := BrokenAnswer(op);
        }
      }
    }
  }

  /** The settings when all pairs but those of todo are stored. */
  function Upserted(settings: map<string, string>, kv: map<string, string>, todo: set<string>): map<string, string> {
    settings + (map k | k in kv && k !in todo :: kv[k])
  }

  lemma UpsertsStart(settings: map<string, string>, kv: map<string, string>)
    ensures Upserted(settings, kv, kv.Keys) == settings
  {
  }

  lemma OneUpsert(settings: map<string, string>, kv: map<string, string>, todo: set<string>, k: string)
    requires k in todo && k in kv
    ensures Upserted(settings, kv, todo - {k}) == Upserted(settings, kv, todo)[k := kv[k]]
  {
  }

  lemma UpsertsEnd(settings: map<string, string>, kv: map<string, string>)
    ensures Upserted(settings, kv, {}) == settings + kv
  {
  }

  predicate Answers(op: T.Op, a: T.Answer) {
    (op.CommitOp? ==> a.CommitAnswer?) && (op.RefundOp? ==> a.RefundAnswer?) && (op.AdjustOp? ==> a.AdjustAnswer?)
  }

  predicate Failed(a: T.Answer) {
    match a
    case CommitAnswer(r) => r.Failure?
    case RefundAnswer(r) => r.Failure?
    case AdjustAnswer(r) => r.Failure?
    case RowAnswer(ok) => !ok
  }

  predicate Broke(a: T.Answer) {
    match a
    case CommitAnswer(r) => r == Failure(T.Broken)
    case RefundAnswer(r) => r == Failure(T.Broken)
    case AdjustAnswer(r) => r == Failure(T.Broken)
    case RowAnswer(ok) => false
  }

  function BrokenAnswer(op: T.Op): T.Answer
    requires op.CommitOp? || op.RefundOp? || op.AdjustOp?
  {
    match op
    case CommitOp(_, _, _, _) => T.CommitAnswer(Failure(T.Broken))
    case RefundOp(_, _, _) => T.RefundAnswer(Failure(T.Broken))
    case AdjustOp(_, _, _, _, _) => T.AdjustAnswer(Failure(T.Broken))
  }

  /** A transaction handle: statements write in place, Rollback puts back what Begin found. */
  class Tx {
    const s: Store
    const snapshot: T.Tables
    const breakAt: Option<nat>
    /** How many statements have been sent. */
    var statements: nat

    constructor (s: Store, breakAt: Option<nat>)
      ensures this.s == s && snapshot == s.Rows() && this.breakAt == breakAt
    {
      this.s := s;
      snapshot := s.Rows();
      this.breakAt := breakAt;
      statements := 0;
    }

    /** Whether the next statement breaks. */
    method Breaks() returns (broken: bool)
      modifies this`statements
      ensures broken <==> breakAt == Some(old(statements))
      ensures statements == old(statements) + 1
    {
      broken := breakAt == Some(statements);
      statements := statements + 1;
    }

    method Rollback()
      modifies s`customers, s`receipts, s`ledger
      ensures s.Rows() == snapshot
    {
      s.customers, s.receipts, s.ledger := snapshot.customers, snapshot.receipts, snapshot.ledger;
    }

    method GetReceipt(id: string) returns (r: Result<T.Receipt, T.Error>)
      modifies this`statements
      ensures r == Failure(T.Broken) ==> breakAt.Some?
      ensures r == Failure(T.Broken) ||
              r == if id in s.receipts then Success(s.receipts[id]) else Failure(T.NoRows)
    {
      var broken := Breaks();
      if broken {
        return Failure(T.Broken);
      }
      r := if id in s.receipts then Success(s.receipts[id]) else Failure(T.NoRows);
    }

    method LockCustomer(id: string) returns (r: Result<T.Customer, T.Error>)
      modifies this`statements
      ensures r == Failure(T.Broken) ==> breakAt.Some?
      ensures r == Failure(T.Broken) ||
              r == if id in s.customers then Success(s.customers[id]) else Failure(T.NoRows)
    {
      var broken := Breaks();
      if broken {
        return Failure(T.Broken);
      }
      r := if id in s.customers then Success(s.customers[id]) else Failure(T.NoRows);
    }

    method InsertReceipt(rec: T.Receipt) returns (error: Option<T.Error>)
      modifies this`statements, s`receipts
      ensures error == Some(T.Broken) ==> breakAt.Some?
      ensures error.None? ==> rec.id !in old(s.receipts) && s.receipts == old(s.receipts)[rec.id := rec]
      ensures error.Some? ==> s.receipts == old(s.receipts)
      ensures error == Some(T.Violation) <==> rec.id in old(s.receipts) && error != Some(T.Broken)
      ensures error.None? || error == Some(T.Violation) || error == Some(T.Broken)
    {
      var broken := Breaks();
      if broken {
        return Some(T.Broken);
      }
      if rec.id in s.receipts {
        return Some(T.Violation);
      }
      s.receipts := s.receipts[rec.id := rec];
      return None;
    }

    method InsertLedger(customerId: string, receiptId: string, delta: int, reason: T.Reason, actorId: string, now: int)
      returns (error: Option<T.Error>)
      modifies this`statements, s`ledger
      ensures error == Some(T.Broken) ==> breakAt.Some?
      ensures error.None? || error == Some(T.Broken)
      ensures error.None? ==>
                s.ledger == old(s.ledger)
                            + [T.LedgerRow(customerId, T.NullIfEmpty(receiptId), delta, reason, actorId, now)]
    {
      var broken := Breaks();
      if broken {
        return Some(T.Broken);
      }
      s.ledger := s.ledger + [T.LedgerRow(customerId, T.NullIfEmpty(receiptId), delta, reason, actorId, now)];
      return None;
    }

    method SetPoints(customerId: string, points: int, now: int) returns (error: Option<T.Error>)
      modifies this`statements, s`customers
      ensures error == Some(T.Broken) ==> breakAt.Some?
      ensures error.None? || error == Some(T.Broken)
      ensures error.None? ==> s.Rows() == T.SetPoints(old(s.Rows()), customerId, points, now)
    {
      var broken := Breaks();
      if broken {
        return Some(T.Broken);
      }
      if customerId in s.customers {
        s.customers := s.customers[customerId := s.customers[customerId].(points := points, updatedAt := now)];
      }
      return None;
    }

    method MarkRefunded(id: string, pointsAfter: int, now: int) returns (error: Option<T.Error>)
      modifies this`statements, s`receipts
      ensures error == Some(T.Broken) ==> breakAt.Some?
      ensures error.None? || error == Some(T.Broken)
      ensures error.None? ==> s.Rows() == T.MarkRefunded(old(s.Rows()), id, pointsAfter, now)
    {
      var broken := Breaks();
      if broken {
        return Some(T.Broken);
      }
      if id in s.receipts {
        s.receipts := s.receipts[id :=
          s.receipts[id].(status := T.Refunded, pointsAfterRefund := Some(pointsAfter), refundedAt := Some(now))];
      }
      return None;
    }

    // ---- the bodies ----

    /** A body that fails may leave partial writes; the caller rolls back. */
    method Run(op: T.Op) returns (answer: T.Answer)
      requires s.Rows() == snapshot && Consistent(snapshot)
      requires T.Admissible(op) && (op.CommitOp? || op.RefundOp? || op.AdjustOp?)
      modifies this`statements, s`customers, s`receipts, s`ledger
      ensures Broke(answer) ==> breakAt.Some?
      ensures Answers(op, answer)
      ensures Broke(answer) || answer == T.Perform(snapshot, op).1
      ensures !Failed(answer) ==> s.Rows() == T.Perform(snapshot, op).0
      ensures Failed(answer) && !Broke(answer) ==> T.Perform(snapshot, op).0 == snapshot
    {
      match op
      case CommitOp(card, req, st, now) =>
        var r := CommitBody(card, req, st, now);
        answer := T.CommitAnswer(r);
      case RefundOp(receiptId, actorId, now) =>
        var r := RefundBody(receiptId, actorId, now);
        answer := T.RefundAnswer(r);
      case AdjustOp(card, delta, reason, actorId, now) =>
        var r := AdjustBody(card, delta, reason, actorId, now);
        answer := T.AdjustAnswer(r);
    }

    method CommitBody(c: T.Customer, req: T.CommitInput, st: Settings, now: int)
      returns (r: Result<T.CommitResult, T.Error>)
      requires s.Rows() == snapshot && Consistent(snapshot) && T.GoodInput(req)
      modifies this`statements, s`customers, s`receipts, s`ledger
      ensures r == Failure(T.Broken) ==> breakAt.Some?
      ensures r == Failure(T.Broken) || r == T.CommitTx(snapshot, c, req, st, now).1
      ensures r.Success? ==> s.Rows() == T.CommitTx(snapshot, c, req, st, now).0
      ensures r.Failure? && r.error != T.Broken ==> T.CommitTx(snapshot, c, req, st, now).0 == snapshot
    {
      var existing := GetReceipt(req.receiptId);
      if existing.Success? {
        var e := existing.value;
        if e.customerId != c.id || e.amountRub != req.amountRub || e.redeemPoints != req.redeemPoints {
          return Failure(T.Refused(DuplicateReceipt));
        }
        return Success(T.CommitResult(e.id, e.customerId, c.barcode, e.pointsAfter, e.earnPoints, e.redeemPoints,
                                      true));
      }
      if existing.error != T.NoRows {
        return Failure(existing.error);
      }
      var lock := LockCustomer(c.id);
      if lock.Failure? {
        return Failure(lock.error);
      }
      var locked := lock.value;
      var unusable := T.Unusable(locked);
      if unusable.Some? {
        return Failure(T.Refused(unusable.value));
      }
      var refused := CheckRedeem(locked.points, req.amountRub, req.redeemPoints, st);
      if refused.Some? {
        return Failure(T.Refused(refused.value));
      }
      var earn := ComputeEarn(req.amountRub, req.redeemPoints, st);
      var points := locked.points - req.redeemPoints + earn;
      var rec := T.Receipt(req.receiptId, req.storeId, req.staffId, locked.id, req.amountRub, req.redeemPoints, earn,
                           T.Committed, points, None, now, None);
      var error := InsertReceipt(rec);
      if error.Some? {
        return Failure(error.value);
      }
      if req.redeemPoints != 0 {
        error := InsertLedger(locked.id, rec.id, -req.redeemPoints, T.Redeemed, req.staffId, now);
        if error.Some? {
          return Failure(error.value);
        }
      }
      if earn != 0 {
        error := InsertLedger(locked.id, rec.id, earn, T.Earned, req.staffId, now);
        if error.Some? {
          return Failure(error.value);
        }
      }
      assert s.ledger == snapshot.ledger + T.CommitRows(rec, now);
      error := SetPoints(locked.id, points, now);
      if error.Some? {
        return Failure(error.value);
      }
      return Success(T.CommitResult(rec.id, locked.id, locked.barcode, points, earn, req.redeemPoints, false));
    }

    method RefundBody(receiptId: string, actorId: string, now: int) returns (r: Result<T.RefundResult, T.Error>)
      requires s.Rows() == snapshot && Consistent(snapshot)
      modifies this`statements, s`customers, s`receipts, s`ledger
      ensures r == Failure(T.Broken) ==> breakAt.Some?
      ensures r == Failure(T.Broken) || r == T.RefundTx(snapshot, receiptId, actorId, now).1
      ensures r.Success? ==> s.Rows() == T.RefundTx(snapshot, receiptId, actorId, now).0
      ensures r.Failure? && r.error != T.Broken ==> T.RefundTx(snapshot, receiptId, actorId, now).0 == snapshot
    {
      var read := GetReceipt(receiptId);
      if read.Failure? {
        return Failure(if read.error == T.NoRows then T.Refused(InvalidRequest) else read.error);
      }
      var rec := read.value;
      if rec.status == T.Refunded {
        var pts := rec.pointsAfter;
        if rec.pointsAfterRefund.Some? {
          pts := rec.pointsAfterRefund.value;
        }
        return Success(T.RefundResult(rec.id, rec.customerId, pts, true));
      }
      var lock := LockCustomer(rec.customerId);
      if lock.Failure? {
        return Failure(lock.error);
      }
      var locked := lock.value;
      var points := locked.points;
      var error: Option<T.Error>;
      if rec.earnPoints > 0 {
        var rev := rec.earnPoints;
        if rev > points {
          rev := points;
        }
        if rev > 0 {
          points := points - rev;
          error := InsertLedger(locked.id, rec.id, -rev, T.EarnReversed, actorId, now);
          if error.Some? {
            return Failure(error.value);
          }
        }
      }
      if rec.redeemPoints > 0 {
        points := points + rec.redeemPoints;
        error := InsertLedger(locked.id, rec.id, rec.redeemPoints, T.RedeemReturned, actorId, now);
        if error.Some? {
          return Failure(error.value);
        }
      }
      assert s.ledger == snapshot.ledger + T.RefundRows(rec, locked.points, actorId, now);
      error := SetPoints(locked.id, points, now);
      if error.Some? {
        return Failure(error.value);
      }
      error := MarkRefunded(rec.id, points, now);
      if error.Some? {
        return Failure(error.value);
      }
      return Success(T.RefundResult(rec.id, rec.customerId, points, false));
    }

    method AdjustBody(c: T.Customer, delta: int, reason: string, actorId: string, now: int)
      returns (r: Result<T.Customer, T.Error>)
      requires s.Rows() == snapshot && Consistent(snapshot)
      modifies this`statements, s`customers, s`receipts, s`ledger
      ensures r == Failure(T.Broken) ==> breakAt.Some?
      ensures r == Failure(T.Broken) || r == T.AdjustTx(snapshot, c, delta, reason, actorId, now).1
      ensures r.Success? ==> s.Rows() == T.AdjustTx(snapshot, c, delta, reason, actorId, now).0
      ensures r.Failure? && r.error != T.Broken ==> T.AdjustTx(snapshot, c, delta, reason, actorId, now).0 == snapshot
    {
      var lock := LockCustomer(c.id);
      if lock.Failure? {
        return Failure(lock.error);
      }
      var locked := lock.value;
      var next := locked.points + delta;
      if next < 0 {
        return Failure(T.Refused(InsufficientPoints));
      }
      var error := InsertLedger(locked.id, "", delta, T.Adjusted(reason), actorId, now);
      if error.Some? {
        return Failure(error.value);
      }
      error := SetPoints(locked.id, next, now);
      if error.Some? {
        return Failure(error.value);
      }
      return Success(c.(points := next, updatedAt := now));
    }
  }

  datatype LookupResult = LookupResult(customer: T.Customer, settings: Settings, canRedeem: bool)

  class LoyaltyService {
    const store: Store
    /** Calls of Jobs.Enqueue, in order; the queue itself is in Outbox. */
    var enqueued: seq<string>

    constructor (store: Store)
      ensures this.store == store && enqueued == []
    {
      this.store := store;
      enqueued := [];
    }

    method ResolveCustomer(card: T.CardCode) returns (r: Result<T.Customer, T.Error>)
      requires store.Valid()
      ensures r == T.Resolve(store.Rows(), card)
    {
      if card.blank {
        return Failure(T.Refused(InvalidRequest));
      }
      var c := store.GetCustomerByBarcode(card.barcode);
      if c.Some? {
        return Success(c.value);
      }
      if card.customerId.Some? {
        c := store.GetCustomerByID(card.customerId.value);
        if c.Some? {
          return Success(c.value);
        }
      }
      return Failure(T.Refused(CustomerNotFound));
    }

    method Lookup(card: T.CardCode) returns (r: Result<LookupResult, T.Error>)
      requires store.Valid()
      ensures var c := T.Resolve(store.Rows(), card);
              && (r.Success? <==> c.Success? && T.Unusable(c.value).None?)
              && (r.Failure? ==> r.error == if c.Failure? then c.error else T.Refused(T.Unusable(c.value).value))
              && (r.Success? ==>
                    && r.value.customer == c.value && r.value.settings == ParseSettings(store.settings)
                    && (r.value.canRedeem <==> c.value.points >= r.value.settings.redeemMin))
      ensures r.Success? && r.value.customer.points > 0 && r.value.settings.redeemMaxShare > 0 ==>
                (r.value.canRedeem <==> SomeRedemptionAllowed(r.value.customer.points, r.value.settings))
    {
      var c := ResolveCustomer(card);
      if c.Failure? {
        return Failure(c.error);
      }
      var unusable := T.Unusable(c.value);
      if unusable.Some? {
        return Failure(T.Refused(unusable.value));
      }
      var st := ParseSettings(store.settings);
      RedemptionAllowedForSomeReceipt(c.value.points, st);
      return Success(LookupResult(c.value, st, c.value.points >= st.redeemMin));
    }

    method Quote(card: T.CardCode, amountRub: int, requested: int) returns (r: Result<Rules.Quote, T.Error>)
      requires store.Valid()
      ensures r == T.QuoteCall(store.Rows(), card, amountRub, requested, ParseSettings(store.settings))
    {
      var c := ResolveCustomer(card);
      if c.Failure? {
        return Failure(c.error);
      }
      var unusable := T.Unusable(c.value);
      if unusable.Some? {
        return Failure(T.Refused(unusable.value));
      }
      if amountRub < 0 || requested < 0 {
        return Failure(T.Refused(InvalidRequest));
      }
      return Success(QuoteRedeem(c.value.points, amountRub, requested, ParseSettings(store.settings)));
    }

    /** A fresh success enqueues its customer; a replay or a failure does not. */
    method Commit(req: T.CommitInput, now: int, breakAt: Option<nat>) returns (r: Result<T.CommitResult, T.Error>)
      requires store.Valid()
      modifies this, store`customers, store`receipts, store`ledger
      ensures store.Valid()
      ensures r == Failure(T.Broken) ==> breakAt.Some? && store.Rows() == old(store.Rows())
      ensures r != Failure(T.Broken) ==>
                (store.Rows(), r) == T.Commit(old(store.Rows()), req, ParseSettings(old(store.settings)), now)
      ensures enqueued == old(enqueued) + if r.Success? && !r.value.idempotentReplay then [r.value.customerId] else []
    {
      if !req.idParses || req.receiptId == "" {
        return Failure(T.Refused(InvalidRequest));
      }
      if req.amountRub < 0 || req.redeemPoints < 0 {
        return Failure(T.Refused(InvalidRequest));
      }
      var c := ResolveCustomer(req.card);
      if c.Failure? {
        return Failure(c.error);
      }
      var unusable := T.Unusable(c.value);
      if unusable.Some? {
        return Failure(T.Refused(unusable.value));
      }
      var st := ParseSettings(store.settings);
      var answer := store.InTx(T.CommitOp(c.value, req, st, now), breakAt);
      r := answer.commit;
      if r.Success? && !r.value.idempotentReplay {
        enqueued := enqueued + [r.value.customerId];
      }
    }

    method Refund(receiptId: string, idParses: bool, actorId: string, now: int, breakAt: Option<nat>)
      returns (r: Result<T.RefundResult, T.Error>)
      requires store.Valid()
      modifies this, store`customers, store`receipts, store`ledger
      ensures store.Valid()
      ensures r == Failure(T.Broken) ==> breakAt.Some? && store.Rows() == old(store.Rows())
      ensures r != Failure(T.Broken) ==>
                (store.Rows(), r) == T.Refund(old(store.Rows()), receiptId, idParses, actorId, now)
      ensures enqueued == old(enqueued) + if r.Success? && !r.value.idempotentReplay then [r.value.customerId] else []
    {
      if !idParses {
        return Failure(T.Refused(InvalidRequest));
      }
      var answer := store.InTx(T.RefundOp(receiptId, actorId, now), breakAt);
      r := answer.refund;
      if r.Success? && !r.value.idempotentReplay {
        enqueued := enqueued + [r.value.customerId];
      }
    }

    method Adjust(card: T.CardCode, delta: int, reason: string, actorId: string, now: int, breakAt: Option<nat>)
      returns (r: Result<T.Customer, T.Error>)
      requires store.Valid()
      modifies this, store`customers, store`receipts, store`ledger
      ensures store.Valid()
      ensures r == Failure(T.Broken) ==> breakAt.Some? && store.Rows() == old(store.Rows())
      ensures r != Failure(T.Broken) ==>
                (store.Rows(), r)
                  == T.Adjust(old(store.Rows()), card, delta, reason, TrimSpace(reason) == "", actorId, now)
      ensures enqueued == old(enqueued) + if r.Success? then [r.value.id] else []
    {
      if TrimSpace(reason) == "" {
        return Failure(T.Refused(InvalidRequest));
      }
      var c := ResolveCustomer(card);
      if c.Failure? {
        return Failure(c.error);
      }
      if c.value.deletedAt.Some? {
        return Failure(T.Refused(CustomerDeleted));
      }
      var answer := store.InTx(T.AdjustOp(c.value, delta, reason, actorId, now), breakAt);
      r := answer.adjust;
      if r.Success? {
        enqueued := enqueued + [c.value.id];
      }
    }

    method Enroll(input: T.EnrollInput, isDigit: char -> bool, id: string, barcode: string, now: int)
      returns (r: Result<(T.Customer, bool), T.Error>)
      requires store.Valid() && T.BarcodeShaped(barcode)
      modifies store`customers
      ensures store.Valid()
      ensures (store.Rows(), r) == T.Enroll(old(store.Rows()), input, isDigit, id, barcode, now)
    {
      if input.cookieId != "" {
        var c := store.GetCustomerByID(input.cookieId);
        if c.Some? {
          if c.value.deletedAt.Some? {
            return Failure(T.Refused(CustomerDeleted));
          }
          return Success((c.value, false));
        }
      }
      var name := TrimSpace(input.name);
      var phone := NormalizePhone(input.phone, isDigit);
      if name == "" || !IsValidPhone(phone) {
        return Failure(T.Refused(InvalidRequest));
      }
      if phone != "" {
        var c := store.GetCustomerByPhone(phone);
        if c.Some? {
          if c.value.deletedAt.Some? {
            return Failure(T.Refused(CustomerDeleted));
          }
          return Success((c.value, false));
        }
      }
      var row := T.NewCustomer(id, barcode, name, phone, now);
      var ok := store.CreateCustomer(row);
      if !ok {
        return Failure(T.Violation);
      }
      return Success((row, true));
    }
  }
}
