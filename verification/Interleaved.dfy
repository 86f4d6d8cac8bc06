/**
 Transactions taken apart into the steps a read-committed database can interleave: a call passes
 its checks, reads the receipt, takes the customer's row lock and re-reads the row, then publishes
 all its writes at once or aborts. The receipts primary key is checked at publication.
 */
module Interleaved {
  import opened LedgerLaws
  import opened Phone
  import opened Rules
  import opened Tables
  import opened Wrappers

  /** A call in flight. Settings were read before the transaction; a row or receipt is a copy as read. */
  datatype Txn =
    | CommitCalled(card: Customer, req: CommitInput, st: Settings)
    | CommitUnseen(card: Customer, req: CommitInput, st: Settings)
    | CommitHolding(row: Customer, req: CommitInput, st: Settings, now: int)
    | RefundCalled(receiptId: string, actorId: string)
    | RefundSeen(rec: Receipt, actorId: string)
    | RefundHolding(rec: Receipt, row: Customer, actorId: string, now: int)
    | AdjustCalled(card: Customer, delta: int, reason: string, actorId: string)
    | AdjustHolding(card: Customer, row: Customer, delta: int, reason: string, actorId: string, now: int)
    | Enrolling(row: Customer)
    | Ended(answer: Answer)
    | Aborted

  /** A published transaction and what it answered. */
  datatype Entry = Entry(op: Op, answer: Answer)

  datatype System = System(
    tables: Tables,
    locks: map<string, nat>,
    txns: map<nat, Txn>,
    log: seq<Entry>
  )

  datatype Step =
    | Begin(id: nat, txn: Txn)
    | Read(id: nat)
    | Lock(id: nat, now: int)
    | Publish(id: nat)
    | Abort(id: nat)
    | Block(customerId: string, blocked: bool, now: int)
    | Delete(customerId: string, deleted: bool, now: int)

  predicate Holding(txn: Txn) {
    txn.CommitHolding? || txn.RefundHolding? || txn.AdjustHolding?
  }

  /** The customer a call is about to lock, when it is at that point. */
  function Wanted(txn: Txn): Option<string> {
    match txn
    case CommitUnseen(card, _, _) => Some(card.id)
    case RefundSeen(rec, _) => Some(rec.customerId)
    case AdjustCalled(card, _, _, _) => Some(card.id)
    case _ => None
  }

  // ---- the steps ------------------------------------------------------------------------------

  /** The checks a call makes on the tables before it starts its transaction. */
  ghost predicate MayBegin(t: Tables, txn: Txn) {
    match txn
    case CommitCalled(card, req, _) => CommitPrechecks(t, req) == Success(card)
    case RefundCalled(_, _) => true
    case AdjustCalled(card, _, _, _) => exists code :: AdjustPrechecks(t, code, false) == Success(card)
    case Enrolling(row) => Issuable(row) && forall id :: id in t.customers ==> t.customers[id].phone != row.phone
    case _ => false
  }

  ghost predicate Enabled(s: System, step: Step) {
    match step
    case Begin(id, txn) => id !in s.txns && MayBegin(s.tables, txn)
    case Read(id) => id in s.txns && (s.txns[id].CommitCalled? || s.txns[id].RefundCalled?)
    case Lock(id, _) => id in s.txns && Wanted(s.txns[id]).Some? && Wanted(s.txns[id]).value !in s.locks
    case Publish(id) => id in s.txns && (Holding(s.txns[id]) || s.txns[id].Enrolling?)
    case Abort(id) => id in s.txns && !s.txns[id].Ended? && !s.txns[id].Aborted?
    case Block(c, _, _) => c in s.tables.customers && c !in s.locks
    case Delete(c, _, _) => c in s.tables.customers && c !in s.locks
  }

  function Become(s: System, id: nat, txn: Txn): System {
    s.(txns := s.txns[id := txn])
  }

  /** End a transaction, releasing the lock it may hold. */
  function End(s: System, id: nat, txn: Txn): System
    requires id in s.txns
  {
    var held := s.txns[id];
    Become(s, id, txn).(locks := if Holding(held) then s.locks - {held.row.id} else s.locks)
  }

  function Commence(s: System, id: nat, row: Customer, txn: Txn): System {
    Become(s, id, txn).(locks := s.locks[row.id := id])
  }

  /** Publish tables and log entry at once, and end. */
  function Publication(s: System, id: nat, tables: Tables, op: Op, answer: Answer): System
    requires id in s.txns
  {
    End(s, id, Ended(answer)).(tables := tables, log := s.log + [Entry(op, answer)])
  }

  function ReadStep(s: System, id: nat): System
    requires id in s.txns && (s.txns[id].CommitCalled? || s.txns[id].RefundCalled?)
  {
    match s.txns[id]
    case CommitCalled(card, req, st) =>
      if req.receiptId in s.tables.receipts then
        End(s, id, Ended(CommitAnswer(ReplayResult(s.tables.receipts[req.receiptId], card, req))))
      else Become(s, id, CommitUnseen(card, req, st))
    case RefundCalled(receiptId, actorId) =>
      if receiptId !in s.tables.receipts then End(s, id, Ended(RefundAnswer(Failure(Refused(InvalidRequest)))))
      else
        var rec := s.tables.receipts[receiptId];
        if rec.status == Refunded then End(s, id, Ended(RefundAnswer(Success(RefundReplay(rec)))))
        else Become(s, id, RefundSeen(rec, actorId))
  }

  function LockStep(s: System, id: nat, now: int): System
    requires id in s.txns && Wanted(s.txns[id]).Some?
  {
    var c := Wanted(s.txns[id]).value;
    match s.txns[id]
    case CommitUnseen(card, req, st) =>
      if c !in s.tables.customers then End(s, id, Ended(CommitAnswer(Failure(NoRows))))
      else
        var row := s.tables.customers[c];
        var refusal := CommitRefusal(row, req, st);
        if refusal.Some? then End(s, id, Ended(CommitAnswer(Failure(Refused(refusal.value)))))
        else Commence(s, id, row, CommitHolding(row, req, st, now))
    case RefundSeen(rec, actorId) =>
      if c !in s.tables.customers then End(s, id, Ended(RefundAnswer(Failure(NoRows))))
      else
        var row := s.tables.customers[c];
        Commence(s, id, row, RefundHolding(rec, row, actorId, now))
    case AdjustCalled(card, delta, reason, actorId) =>
      if c !in s.tables.customers then End(s, id, Ended(AdjustAnswer(Failure(NoRows))))
      else
        var row := s.tables.customers[c];
        if row.points + delta < 0 then End(s, id, Ended(AdjustAnswer(Failure(Refused(InsufficientPoints)))))
        else Commence(s, id, row, AdjustHolding(card, row, delta, reason, actorId, now))
  }

  function PublishStep(s: System, id: nat): System
    requires id in s.txns && (Holding(s.txns[id]) || s.txns[id].Enrolling?)
  {
    match s.txns[id]
    case CommitHolding(row, req, st, now) =>
      if req.receiptId in s.tables.receipts then End(s, id, Ended(CommitAnswer(Failure(Violation))))
      else Publication(s, id, PublishCommit(s.tables, row, req, st, now), CommitOp(row, req, st, now),
                       CommitAnswer(Success(FreshResult(row, req, st))))
    case RefundHolding(rec, row, actorId, now) =>
      Publication(s, id, PublishRefund(s.tables, rec, row, actorId, now), RefundOp(rec.id, actorId, now),
                  RefundAnswer(Success(RefundResult(rec.id, rec.customerId, RefundedPoints(rec, row.points), false))))
    case AdjustHolding(card, row, delta, reason, actorId, now) =>
      Publication(s, id, PublishAdjust(s.tables, row, delta, reason, actorId, now),
                  AdjustOp(card, delta, reason, actorId, now),
                  AdjustAnswer(Success(card.(points := row.points + delta, updatedAt := now))))
    case Enrolling(row) =>
      if !Insertable(s.tables, row) then End(s, id, Ended(RowAnswer(false)))
      else Publication(s, id, CreateCustomer(s.tables, row).0, CreateOp(row), RowAnswer(true))
  }

  ghost function Next(s: System, step: Step): System
    requires Enabled(s, step)
  {
    match step
    case Begin(id, txn) => Become(s, id, txn)
    case Read(id) => ReadStep(s, id)
    case Lock(id, now) => LockStep(s, id, now)
    case Publish(id) => PublishStep(s, id)
    case Abort(id) => End(s, id, Aborted)
    case Block(c, blocked, now) =>
      s.(tables := SetBlocked(s.tables, c, blocked, now).0,
         log := s.log + [Entry(BlockOp(c, blocked, now), RowAnswer(true))])
    case Delete(c, deleted, now) =>
      s.(tables := SetDeleted(s.tables, c, deleted, now).0,
         log := s.log + [Entry(DeleteOp(c, deleted, now), RowAnswer(true))])
  }

  /** The state after a run, when every step of it was enabled. */
  ghost function Exec(s: System, steps: seq<Step>): Option<System> {
    if steps == [] then Some(s)
    else
      var before := Exec(s, steps[..|steps| - 1]);
      var step := steps[|steps| - 1];
      if before.Some? && Enabled(before.value, step) then Some(Next(before.value, step)) else None
  }

  /** Nothing in flight. */
  ghost predicate Quiet(s: System) {
    s.locks == map[] && s.txns == map[] && s.log == []
  }

  // ---- the invariant --------------------------------------------------------------------------

  /** A held row is locked by its holder and is still the stored row. */
  ghost predicate HeldRow(s: System, id: nat, row: Customer) {
    && row.id in s.locks && s.locks[row.id] == id
    && row.id in s.tables.customers && s.tables.customers[row.id] == row
  }

  ghost predicate TxnSafe(s: System, id: nat) {
    id in s.txns ==>
      match s.txns[id]
      case CommitCalled(card, req, _) => GoodInput(req) && card.id in s.tables.customers
      case CommitUnseen(card, req, _) => GoodInput(req) && card.id in s.tables.customers
      case CommitHolding(row, req, st, _) => GoodInput(req) && HeldRow(s, id, row) && CommitRefusal(row, req, st).None?
      case RefundSeen(rec, _) =>
        rec.status == Committed && rec.id in s.tables.receipts && SameSale(rec, s.tables.receipts[rec.id])
      case RefundHolding(rec, row, _, _) =>
        && rec.status == Committed && rec.id in s.tables.receipts && SameSale(rec, s.tables.receipts[rec.id])
        && HeldRow(s, id, row) && row.id == rec.customerId
      case AdjustCalled(card, _, _, _) => card.id in s.tables.customers
      case AdjustHolding(card, row, delta, _, _, _) =>
        HeldRow(s, id, row) && row.id == card.id && row.points + delta >= 0
      case Enrolling(row) => Issuable(row)
      case _ => true
  }

  ghost predicate LockOwned(s: System, c: string) {
    c in s.locks ==> s.locks[c] in s.txns && Holding(s.txns[s.locks[c]]) && s.txns[s.locks[c]].row.id == c
  }

  ghost predicate Safe(s: System) {
    && Consistent(s.tables)
    && (forall id :: TxnSafe(s, id))
    && (forall c :: LockOwned(s, c))
  }

  // ---- every step keeps it --------------------------------------------------------------------

  /** Another call is undisturbed when what it copied is preserved and the row it holds is not touched. */
  lemma OthersUndisturbed(s: System, u: System, id: nat)
    requires TxnSafe(s, id) && Preserves(s.tables, u.tables)
    requires id in u.txns ==> id in s.txns && u.txns[id] == s.txns[id]
    requires id in s.txns && Holding(s.txns[id]) ==>
               var c := s.txns[id].row.id;
               c in u.locks && u.locks[c] == id && (c in s.tables.customers ==>
                 c in u.tables.customers && u.tables.customers[c] == s.tables.customers[c])
    ensures TxnSafe(u, id)
  {
  }

  lemma EndKeepsSafe(s: System, id: nat, txn: Txn)
    requires Safe(s) && id in s.txns && (txn.Ended? || txn.Aborted?)
    ensures Safe(End(s, id, txn))
  {
    var u := End(s, id, txn);
    PreservesItself(s.tables);
    forall other ensures TxnSafe(u, other) {
      assert TxnSafe(s, other) && TxnSafe(s, id);
      if other != id {
        OthersUndisturbed(s, u, other);
      }
    }
    forall c ensures LockOwned(u, c) {
      assert LockOwned(s, c) && TxnSafe(s, id);
    }
  }

  lemma BecomeKeepsSafe(s: System, id: nat, txn: Txn)
    requires Safe(s) && (id in s.txns ==> !Holding(s.txns[id])) && !Holding(txn)
    requires TxnSafe(Become(s, id, txn), id)
    ensures Safe(Become(s, id, txn))
  {
    var u := Become(s, id, txn);
    PreservesItself(s.tables);
    forall other ensures TxnSafe(u, other) {
      assert TxnSafe(s, other);
      if other != id {
        OthersUndisturbed(s, u, other);
      }
    }
    forall c ensures LockOwned(u, c) {
      assert LockOwned(s, c);
    }
  }

  lemma CommenceKeepsSafe(s: System, id: nat, row: Customer, txn: Txn)
    requires Safe(s) && id in s.txns && !Holding(s.txns[id]) && row.id !in s.locks
    requires Holding(txn) && txn.row == row && TxnSafe(Commence(s, id, row, txn), id)
    ensures Safe(Commence(s, id, row, txn))
  {
    var u := Commence(s, id, row, txn);
    PreservesItself(s.tables);
    forall other ensures TxnSafe(u, other) {
      assert TxnSafe(s, other);
      if other != id {
        OthersUndisturbed(s, u, other);
      }
    }
    forall c ensures LockOwned(u, c) {
      assert LockOwned(s, c);
    }
  }

  lemma LockKeepsSafe(s: System, id: nat, now: int)
    requires Safe(s) && Enabled(s, Lock(id, now))
    ensures Safe(LockStep(s, id, now))
  {
    var u := LockStep(s, id, now);
    assert TxnSafe(s, id);
    if u.txns[id].Ended? {
      EndKeepsSafe(s, id, u.txns[id]);
    } else {
      CommenceKeepsSafe(s, id, u.txns[id].row, u.txns[id]);
    }
  }

  lemma ReadKeepsSafe(s: System, id: nat)
    requires Safe(s) && Enabled(s, Read(id))
    ensures Safe(ReadStep(s, id))
  {
    var u := ReadStep(s, id);
    assert TxnSafe(s, id);
    if u.txns[id].Ended? {
      EndKeepsSafe(s, id, u.txns[id]);
    } else {
      BecomeKeepsSafe(s, id, u.txns[id]);
    }
  }

  /** A publication keeps the tables' invariant, whichever transaction it is. */
  lemma PublishedTablesConsistent(s: System, id: nat)
    requires Consistent(s.tables) && TxnSafe(s, id) && Enabled(s, Publish(id))
    ensures Consistent(PublishStep(s, id).tables)
    ensures Preserves(s.tables, PublishStep(s, id).tables)
  {
    PreservesItself(s.tables);
    match s.txns[id]
    case CommitHolding(row, req, st, now) =>
      if req.receiptId !in s.tables.receipts {
        PointsNonNegative(s.tables, row.id);
        CommitPreserves(s.tables, row, req, st, now);
        CommitKeepsConsistent(s.tables, row, req, st, now);
      }
    case RefundHolding(rec, row, actorId, now) => RefundKeepsConsistent(s.tables, rec, row, actorId, now);
    case AdjustHolding(card, row, delta, reason, actorId, now) =>
      AdjustKeepsConsistent(s.tables, row, delta, reason, actorId, now);
    case Enrolling(row) => CustomerStatementsKeepConsistent(s.tables, CreateOp(row));
  }

  /** A publication changes no customer row but the one held, and nothing when it logs nothing. */
  lemma PublicationTouchesHeldRow(s: System, id: nat)
    requires TxnSafe(s, id) && Enabled(s, Publish(id))
    ensures var u := PublishStep(s, id);
            && (u.log == s.log ==> u.tables == s.tables)
            && (forall c :: c in s.tables.customers && !(Holding(s.txns[id]) && s.txns[id].row.id == c) ==>
                  c in u.tables.customers && u.tables.customers[c] == s.tables.customers[c])
            && (forall c :: c in u.locks <==> c in s.locks && !(Holding(s.txns[id]) && s.txns[id].row.id == c))
            && (forall c :: c in u.locks ==> u.locks[c] == s.locks[c])
  {
  }

  lemma PublicationEnds(s: System, id: nat)
    requires Enabled(s, Publish(id))
    ensures id in PublishStep(s, id).txns && PublishStep(s, id).txns[id].Ended?
    ensures PublishStep(s, id).txns == s.txns[id := PublishStep(s, id).txns[id]]
  {
  }

  /** Two calls never hold the same row. */
  lemma HoldersDiffer(s: System, id: nat, other: nat)
    requires TxnSafe(s, id) && TxnSafe(s, other) && id != other && id in s.txns && other in s.txns
    requires Holding(s.txns[id]) && Holding(s.txns[other])
    ensures s.txns[id].row.id != s.txns[other].row.id
    ensures s.txns[other].row.id in s.locks && s.locks[s.txns[other].row.id] == other
  {
  }

  lemma HolderHolds(s: System, id: nat)
    requires TxnSafe(s, id) && id in s.txns && Holding(s.txns[id])
    ensures HeldRow(s, id, s.txns[id].row)
  {
  }

  lemma OthersOutlivePublication(s: System, id: nat, other: nat)
    requires TxnSafe(s, id) && TxnSafe(s, other) && Enabled(s, Publish(id))
    requires Preserves(s.tables, PublishStep(s, id).tables)
    ensures TxnSafe(PublishStep(s, id), other)
  {
    var u := PublishStep(s, id);
    PublicationTouchesHeldRow(s, id);
    PublicationEnds(s, id);
    if other != id && other in s.txns {
      if Holding(s.txns[other]) {
        HolderHolds(s, other);
        if Holding(s.txns[id]) {
          HoldersDiffer(s, id, other);
        }
      }
      OthersUndisturbed(s, u, other);
    }
  }

  lemma PublicationKeepsLocksOwned(s: System, id: nat, c: string)
    requires TxnSafe(s, id) && LockOwned(s, c) && Enabled(s, Publish(id))
    ensures LockOwned(PublishStep(s, id), c)
  {
    PublicationTouchesHeldRow(s, id);
  }

  lemma PublishKeepsSafe(s: System, id: nat)
    requires Safe(s) && Enabled(s, Publish(id))
    ensures Safe(PublishStep(s, id))
    ensures Preserves(s.tables, PublishStep(s, id).tables)
  {
    var u := PublishStep(s, id);
    assert TxnSafe(s, id);
    PublishedTablesConsistent(s, id);
    forall other ensures TxnSafe(u, other) {
      assert TxnSafe(s, other);
      OthersOutlivePublication(s, id, other);
    }
    forall c ensures LockOwned(u, c) {
      assert LockOwned(s, c);
      PublicationKeepsLocksOwned(s, id, c);
    }
  }

  /** Blocking and deleting touch only a row nobody holds. */
  lemma StatementTouchesFreeRow(s: System, step: Step)
    requires (step.Block? || step.Delete?) && Enabled(s, step)
    ensures var u := Next(s, step);
            && u.locks == s.locks && u.txns == s.txns
            && u.log == s.log + [u.log[|s.log|]]
            && Perform(s.tables, u.log[|s.log|].op) == (u.tables, u.log[|s.log|].answer)
            && (forall c :: c in s.locks && c in s.tables.customers ==>
                  c in u.tables.customers && u.tables.customers[c] == s.tables.customers[c])
  {
  }

  lemma StatementKeepsSafe(s: System, step: Step)
    requires Safe(s) && (step.Block? || step.Delete?) && Enabled(s, step)
    ensures Safe(Next(s, step))
    ensures Preserves(s.tables, Next(s, step).tables)
  {
    var u := Next(s, step);
    StatementTouchesFreeRow(s, step);
    CustomerStatementsKeepConsistent(s.tables, u.log[|s.log|].op);
    forall id ensures TxnSafe(u, id) {
      assert TxnSafe(s, id);
      OthersUndisturbed(s, u, id);
    }
    forall c ensures LockOwned(u, c) {
      assert LockOwned(s, c);
    }
  }

  lemma BeginKeepsSafe(s: System, id: nat, txn: Txn)
    requires Safe(s) && Enabled(s, Begin(id, txn))
    ensures Safe(Become(s, id, txn))
  {
    BecomeKeepsSafe(s, id, txn);
  }

  lemma StepKeepsSafe(s: System, step: Step)
    requires Safe(s) && Enabled(s, step)
    ensures Safe(Next(s, step)) && Preserves(s.tables, Next(s, step).tables)
  {
    PreservesItself(s.tables);
    match step
    case Begin(id, txn) => BeginKeepsSafe(s, id, txn);
    case Read(id) => ReadKeepsSafe(s, id);
    case Lock(id, now) => LockKeepsSafe(s, id, now);
    case Publish(id) => PublishKeepsSafe(s, id);
    case Abort(id) => EndKeepsSafe(s, id, Aborted);
    case _ => StatementKeepsSafe(s, step);
  }

  lemma {:induction false} RunKeepsSafe(s: System, steps: seq<Step>)
    requires Safe(s) && Exec(s, steps).Some?
    ensures Safe(Exec(s, steps).value) && Preserves(s.tables, Exec(s, steps).value.tables)
  {
    PreservesItself(s.tables);
    if steps != [] {
      var front, step := steps[..|steps| - 1], steps[|steps| - 1];
      RunKeepsSafe(s, front);
      StepKeepsSafe(Exec(s, front).value, step);
      PreservesTransitive(s.tables, Exec(s, front).value.tables, Exec(s, steps).value.tables);
    }
  }

  lemma QuietIsSafe(s: System)
    requires Quiet(s) && Consistent(s.tables)
    ensures Safe(s)
  {
  }

  // ---- main results: every interleaving --------------------------------------------------------

  /**
   In every reachable state, overlapping refunds included, each balance is the sum of the customer's
   ledger, and no cut of the ledger leaves any customer below zero.
   */
  lemma LedgerExplainsBalances(s: System, steps: seq<Step>)
    requires Quiet(s) && Consistent(s.tables) && Exec(s, steps).Some?
    ensures var t := Exec(s, steps).value.tables;
            && (forall c :: c in t.customers ==> t.customers[c].points == Total(t.ledger, OfCustomer(c)) >= 0)
            && (forall k, c :: 0 <= k <= |t.ledger| ==> Total(t.ledger[..k], OfCustomer(c)) >= 0)
  {
    QuietIsSafe(s);
    RunKeepsSafe(s, steps);
    var t := Exec(s, steps).value.tables;
    forall k, c | 0 <= k <= |t.ledger| ensures Total(t.ledger[..k], OfCustomer(c)) >= 0 {
      assert CutIsAboveZero(t.ledger, k, c);
    }
    forall c | c in t.customers ensures t.customers[c].points == Total(t.ledger, OfCustomer(c)) >= 0 {
      PointsNonNegative(t, c);
      assert BalanceAgrees(t.customers, t.ledger, c);
    }
  }

  /** One phone, one card, for good: stored phones are valid and each keeps naming one customer. */
  lemma OnePhoneOneCard(s: System, steps: seq<Step>, more: seq<Step>, a: string, b: string)
    requires Quiet(s) && Consistent(s.tables)
    requires Exec(s, steps).Some? && Exec(Exec(s, steps).value, more).Some?
    requires var m, u := Exec(s, steps).value, Exec(Exec(s, steps).value, more).value;
             a in m.tables.customers && b in u.tables.customers
             && u.tables.customers[b].phone == m.tables.customers[a].phone
    ensures a == b && IsValidPhone(Exec(s, steps).value.tables.customers[a].phone)
  {
    QuietIsSafe(s);
    RunKeepsSafe(s, steps);
    var m := Exec(s, steps).value;
    RunKeepsSafe(m, more);
    var u := Exec(m, more).value;
    assert CardIssued(m.tables.customers, a);
    assert NoClash(u.tables.customers, a, b);
  }

  /** A commit is published only while its customer is neither blocked nor deleted. */
  lemma {:induction false} PublishedWhileUsable(s: System, steps: seq<Step>, id: nat)
    requires Quiet(s) && Consistent(s.tables) && Exec(s, steps).Some?
    requires var m := Exec(s, steps).value;
             Enabled(m, Publish(id)) && m.txns[id].CommitHolding? && PublishStep(m, id).log != m.log
    ensures var m := Exec(s, steps).value;
            var rec := PublishStep(m, id).tables.receipts[m.txns[id].req.receiptId];
            && rec.customerId in m.tables.customers
            && !m.tables.customers[rec.customerId].blocked && m.tables.customers[rec.customerId].deletedAt.None?
            && m.tables.customers[rec.customerId].points >= rec.redeemPoints
  {
    QuietIsSafe(s);
    RunKeepsSafe(s, steps);
    var m := Exec(s, steps).value;
    assert TxnSafe(m, id);
    PointsNonNegative(m.tables, m.txns[id].row.id);
  }

  /** What a publication answers is what it stores, computed from the row it holds; stale refunds included. */
  lemma PublishedAnswersAreStored(s: System, id: nat)
    requires Safe(s) && Enabled(s, Publish(id)) && Holding(s.txns[id]) && PublishStep(s, id).log != s.log
    ensures var u := PublishStep(s, id);
            var txn, c := s.txns[id], s.txns[id].row.id;
            var answer := u.log[|u.log| - 1].answer;
            && c in s.tables.customers && c in u.tables.customers
            && var found, left := s.tables.customers[c].points, u.tables.customers[c].points;
               match txn
               case CommitHolding(_, req, _, _) =>
                 && req.receiptId in u.tables.receipts && answer.CommitAnswer? && answer.commit.Success?
                 && answer.commit.value.customerId == c && answer.commit.value.receiptId == req.receiptId
                 && answer.commit.value.points == left == u.tables.receipts[req.receiptId].pointsAfter
                 && answer.commit.value.earnPoints == u.tables.receipts[req.receiptId].earnPoints
                 && left == found - req.redeemPoints + answer.commit.value.earnPoints
               case RefundHolding(rec, _, _, _) =>
                 && rec.id in u.tables.receipts && answer.RefundAnswer?
                 && answer.refund == Success(RefundResult(rec.id, c, left, false))
                 && u.tables.receipts[rec.id].pointsAfterRefund == Some(left)
                 && left == found - (if rec.earnPoints < found then rec.earnPoints else found) + rec.redeemPoints
               case AdjustHolding(_, _, delta, _, _, _) =>
                 && answer.AdjustAnswer? && answer.adjust.Success? && answer.adjust.value.id == c
                 && answer.adjust.value.points == left == found + delta
               case _ => true
  {
    assert TxnSafe(s, id);
    PointsNonNegative(s.tables, s.txns[id].row.id);
  }

  // ---- commits take effect at most once --------------------------------------------------------

  ghost predicate EntryStored(s: System, op: Op)
    requires op.CommitOp?
  {
    && op.req.receiptId in s.tables.receipts
    && var rec := s.tables.receipts[op.req.receiptId];
       rec.customerId == op.card.id && rec.amountRub == op.req.amountRub && rec.redeemPoints == op.req.redeemPoints
  }

  /** Published commits have distinct, stored receipt ids. */
  ghost predicate CommitsDistinct(s: System) {
    && (forall i :: 0 <= i < |s.log| && s.log[i].op.CommitOp? ==> EntryStored(s, s.log[i].op))
    && (forall i, j :: 0 <= i < j < |s.log| && s.log[i].op.CommitOp? && s.log[j].op.CommitOp? ==>
          s.log[i].op.req.receiptId != s.log[j].op.req.receiptId)
  }

  /** Only a publication writes: without a new log entry the tables are as they were. */
  lemma OnlyPublicationsWrite(s: System, step: Step)
    requires (forall id :: TxnSafe(s, id)) && Enabled(s, step)
    ensures var u := Next(s, step);
            && (u.log == s.log || (|u.log| == |s.log| + 1 && u.log[..|s.log|] == s.log))
            && (u.log == s.log ==> u.tables == s.tables)
  {
    match step
    case Publish(id) => assert TxnSafe(s, id); PublicationTouchesHeldRow(s, id);
    case Block(_, _, _) => StatementTouchesFreeRow(s, step);
    case Delete(_, _, _) => StatementTouchesFreeRow(s, step);
    case _ =>
  }

  /** The entry of a published commit names a receipt id that was free and is now stored with its data. */
  lemma PublishedCommitWasFree(s: System, step: Step)
    requires Enabled(s, step) && |Next(s, step).log| == |s.log| + 1 && Next(s, step).log[|s.log|].op.CommitOp?
    ensures var u := Next(s, step);
            var op := u.log[|s.log|].op;
            op.req.receiptId !in s.tables.receipts && EntryStored(u, op)
  {
  }

  lemma StoredStaysStored(s: System, u: System, op: Op)
    requires op.CommitOp? && EntryStored(s, op) && Preserves(s.tables, u.tables)
    ensures EntryStored(u, op)
  {
  }

  lemma LogGrowthKeepsCommitsDistinct(s: System, u: System)
    requires CommitsDistinct(s) && Preserves(s.tables, u.tables)
    requires |s.log| <= |u.log| <= |s.log| + 1 && u.log[..|s.log|] == s.log
    requires |u.log| == |s.log| + 1 && u.log[|s.log|].op.CommitOp? ==>
               u.log[|s.log|].op.req.receiptId !in s.tables.receipts && EntryStored(u, u.log[|s.log|].op)
    ensures CommitsDistinct(u)
  {
    forall i | 0 <= i < |s.log| && u.log[i].op.CommitOp?
      ensures u.log[i] == s.log[i] && EntryStored(s, u.log[i].op) && EntryStored(u, u.log[i].op)
    {
      assert u.log[i] == u.log[..|s.log|][i] == s.log[i];
      StoredStaysStored(s, u, s.log[i].op);
    }
  }

  lemma StepKeepsCommitsDistinct(s: System, step: Step)
    requires Safe(s) && CommitsDistinct(s) && Enabled(s, step)
    ensures CommitsDistinct(Next(s, step))
  {
    var u := Next(s, step);
    StepKeepsSafe(s, step);
    OnlyPublicationsWrite(s, step);
    if u.log != s.log && u.log[|s.log|].op.CommitOp? {
      PublishedCommitWasFree(s, step);
    }
    LogGrowthKeepsCommitsDistinct(s, u);
  }

  lemma {:induction false} RunKeepsCommitsDistinct(s: System, steps: seq<Step>)
    requires Safe(s) && CommitsDistinct(s) && Exec(s, steps).Some?
    ensures CommitsDistinct(Exec(s, steps).value)
  {
    if steps != [] {
      var front := steps[..|steps| - 1];
      RunKeepsCommitsDistinct(s, front);
      RunKeepsSafe(s, front);
      StepKeepsCommitsDistinct(Exec(s, front).value, steps[|steps| - 1]);
    }
  }

  /**
   In every interleaving, even of commits naming different customers, a receipt id is published by
   one commit at most, and it has one redeem row and one earn row at most, carrying what the stored
   receipt says.
   */
  lemma CommitAtMostOnce(s: System, steps: seq<Step>, receiptId: string)
    requires Quiet(s) && Consistent(s.tables) && Exec(s, steps).Some?
    ensures var u := Exec(s, steps).value;
            && (forall i, j :: 0 <= i < j < |u.log| && u.log[i].op.CommitOp? && u.log[j].op.CommitOp? ==>
                  !(u.log[i].op.req.receiptId == u.log[j].op.req.receiptId == receiptId))
            && Count(u.tables.ledger, OfKind(receiptId, Redeemed)) <= 1
            && Count(u.tables.ledger, OfKind(receiptId, Earned)) <= 1
            && (receiptId in u.tables.receipts ==>
                  && Total(u.tables.ledger, OfKind(receiptId, Redeemed)) == -u.tables.receipts[receiptId].redeemPoints
                  && Total(u.tables.ledger, OfKind(receiptId, Earned)) == u.tables.receipts[receiptId].earnPoints)
            && (receiptId !in u.tables.receipts ==>
                  Count(u.tables.ledger, OfKind(receiptId, Redeemed))
                      == Count(u.tables.ledger, OfKind(receiptId, Earned)) == 0)
  {
    QuietIsSafe(s);
    RunKeepsSafe(s, steps);
    RunKeepsCommitsDistinct(s, steps);
    var u := Exec(s, steps).value;
    assert RowsOnce(receiptId, u.tables.receipts, u.tables.ledger);
  }

  // ---- serialisability -------------------------------------------------------------------------

  function Ops(log: seq<Entry>): seq<Op> {
    seq(|log|, i requires 0 <= i < |log| => log[i].op)
  }

  /** Between its read of the receipt and its end. */
  predicate Refunding(txn: Txn, receiptId: string) {
    (txn.RefundSeen? || txn.RefundHolding?) && txn.rec.id == receiptId
  }

  /** A refund reads its receipt only while no other refund of it is between its read and its end. */
  ghost predicate Exclusive(s: System, step: Step) {
    step.Read? && step.id in s.txns && s.txns[step.id].RefundCalled? ==>
      forall other :: other in s.txns ==> !Refunding(s.txns[other], s.txns[step.id].receiptId)
  }

  ghost predicate NoRefundOverlap(s: System, steps: seq<Step>) {
    steps == [] ||
    var front := steps[..|steps| - 1];
    NoRefundOverlap(s, front) && (Exec(s, front).Some? ==> Exclusive(Exec(s, front).value, steps[|steps| - 1]))
  }

  /** A refund in progress is the only one of its receipt, and the receipt is as it read it. */
  ghost predicate RefundAlone(s: System, id: nat) {
    id in s.txns && (s.txns[id].RefundSeen? || s.txns[id].RefundHolding?) ==>
      var rec := s.txns[id].rec;
      && rec.status == Committed
      && rec.id in s.tables.receipts && s.tables.receipts[rec.id] == rec
      && forall other :: other in s.txns && other != id ==> !Refunding(s.txns[other], rec.id)
  }

  ghost predicate RefundsAlone(s: System) {
    forall id :: RefundAlone(s, id)
  }

  /** The receipts a step leaves alone: every one but that of the refund it publishes. */
  lemma StepKeepsOtherReceipts(s: System, step: Step, receiptId: string)
    requires (forall id :: TxnSafe(s, id)) && Enabled(s, step) && receiptId in s.tables.receipts
    requires step.Publish? ==> !Refunding(s.txns[step.id], receiptId)
    ensures receiptId in Next(s, step).tables.receipts
    ensures Next(s, step).tables.receipts[receiptId] == s.tables.receipts[receiptId]
  {
    if step.Publish? {
      assert TxnSafe(s, step.id);
    }
  }

  /** The call a step belongs to. */
  function Actor(step: Step): Option<nat> {
    match step
    case Block(_, _, _) => None
    case Delete(_, _, _) => None
    case _ => Some(step.id)
  }

  lemma StepMovesItsActor(s: System, step: Step, id: nat)
    requires Enabled(s, step) && Actor(step) != Some(id)
    ensures id in Next(s, step).txns <==> id in s.txns
    ensures id in s.txns ==> Next(s, step).txns[id] == s.txns[id]
  {
  }

  /** Who is refunding after a step was refunding before it, or has just read the receipt. */
  lemma StepRefunding(s: System, step: Step, id: nat)
    requires ReceiptsKeyed(s.tables.receipts, s.tables.customers) && Enabled(s, step)
    requires var u := Next(s, step); id in u.txns && (u.txns[id].RefundSeen? || u.txns[id].RefundHolding?)
    ensures id in s.txns && (step.Publish? ==> step.id != id)
    ensures var rec := Next(s, step).txns[id].rec;
            || ((s.txns[id].RefundSeen? || s.txns[id].RefundHolding?) && s.txns[id].rec == rec)
            || (step == Read(id) && s.txns[id] == RefundCalled(rec.id, s.txns[id].actorId) && rec.status == Committed
                && rec.id in s.tables.receipts && s.tables.receipts[rec.id] == rec)
  {
    if Actor(step) != Some(id) {
      StepMovesItsActor(s, step, id);
    }
  }

  lemma StepKeepsRefundsAlone(s: System, step: Step)
    requires Safe(s) && RefundsAlone(s) && Enabled(s, step) && Exclusive(s, step)
    ensures RefundsAlone(Next(s, step))
  {
    var u := Next(s, step);
    forall id ensures RefundAlone(u, id) {
      if id in u.txns && (u.txns[id].RefundSeen? || u.txns[id].RefundHolding?) {
        var rec := u.txns[id].rec;
        StepRefunding(s, step, id);
        assert RefundAlone(s, id);
        StepKeepsOtherReceipts(s, step, rec.id);
        forall other | other in u.txns && other != id ensures !Refunding(u.txns[other], rec.id) {
          if Refunding(u.txns[other], rec.id) {
            StepRefunding(s, step, other);
          }
        }
      }
    }
  }

  /** A refund about to publish finds its receipt as it read it. */
  predicate AsRead(s: System, step: Step) {
    step.Publish? && step.id in s.txns && s.txns[step.id].RefundHolding? ==>
      var rec := s.txns[step.id].rec;
      rec.id in s.tables.receipts && s.tables.receipts[rec.id] == rec
  }

  ghost predicate RefundsAsRead(s: System, steps: seq<Step>) {
    steps == [] ||
    var front := steps[..|steps| - 1];
    RefundsAsRead(s, front) && (Exec(s, front).Some? ==> AsRead(Exec(s, front).value, steps[|steps| - 1]))
  }

  /**
   Run alone at the moment of its publication, a transaction does and answers the same, exactly
   unless it is a refund whose receipt is no longer as it read it.
   */
  lemma PublicationIsSerial(s: System, step: Step)
    requires Safe(s) && Enabled(s, step) && Next(s, step).log != s.log
    ensures var u := Next(s, step);
            && |u.log| == |s.log| + 1 && u.log[..|s.log|] == s.log
            && Admissible(u.log[|s.log|].op)
            && (AsRead(s, step) ==> Perform(s.tables, u.log[|s.log|].op) == (u.tables, u.log[|s.log|].answer))
            && (!AsRead(s, step) ==> Perform(s.tables, u.log[|s.log|].op).1 != u.log[|s.log|].answer)
  {
    if step.Publish? {
      assert TxnSafe(s, step.id);
    }
  }

  lemma SerialSnoc(t: Tables, log: seq<Entry>, entry: Entry)
    ensures RunSerial(t, Ops(log + [entry])) == Perform(RunSerial(t, Ops(log)), entry.op).0
  {
    assert Ops(log + [entry])[..|log|] == Ops(log);
  }

  /** The answers given are those of the serial run. */
  ghost predicate AnswersAreSerial(t: Tables, log: seq<Entry>) {
    forall i :: 0 <= i < |log| ==> Perform(RunSerial(t, Ops(log[..i])), log[i].op).1 == log[i].answer
  }

  lemma AnswersSnoc(t: Tables, log: seq<Entry>, entry: Entry)
    requires AnswersAreSerial(t, log) && Perform(RunSerial(t, Ops(log)), entry.op).1 == entry.answer
    ensures AnswersAreSerial(t, log + [entry])
  {
    var longer := log + [entry];
    forall i | 0 <= i < |longer|
      ensures Perform(RunSerial(t, Ops(longer[..i])), longer[i].op).1 == longer[i].answer
    {
      assert longer[..i] == if i < |log| then log[..i] else log;
    }
  }

  lemma AnswersOfPrefix(t: Tables, log: seq<Entry>, entry: Entry)
    requires AnswersAreSerial(t, log + [entry])
    ensures AnswersAreSerial(t, log) && Perform(RunSerial(t, Ops(log)), entry.op).1 == entry.answer
  {
    var longer := log + [entry];
    forall i | 0 <= i < |log| ensures Perform(RunSerial(t, Ops(log[..i])), log[i].op).1 == log[i].answer {
      assert longer[..i] == log[..i] && longer[i] == log[i];
    }
    assert longer[..|log|] == log && longer[|log|] == entry;
  }

  /** One step takes a serial history to a serial one, exactly when it publishes no stale refund. */
  lemma StepKeepsSerial(t: Tables, s: System, step: Step)
    requires Safe(s) && Enabled(s, step) && s.tables == RunSerial(t, Ops(s.log)) && AnswersAreSerial(t, s.log)
    ensures AnswersAreSerial(t, Next(s, step).log) <==> AsRead(s, step)
    ensures AsRead(s, step) ==> Next(s, step).tables == RunSerial(t, Ops(Next(s, step).log))
  {
    var u := Next(s, step);
    OnlyPublicationsWrite(s, step);
    if !AsRead(s, step) {
      StaleRefundIsLogged(s, step);
    }
    if u.log != s.log {
      PublicationIsSerial(s, step);
      var entry := u.log[|s.log|];
      assert u.log == s.log + [entry];
      SerialSnoc(t, s.log, entry);
      if AnswersAreSerial(t, u.log) {
        AnswersOfPrefix(t, s.log, entry);
      }
      if AsRead(s, step) {
        AnswersSnoc(t, s.log, entry);
      }
    }
  }

  lemma StaleRefundIsLogged(s: System, step: Step)
    requires Enabled(s, step) && !AsRead(s, step)
    ensures Next(s, step).log != s.log
  {
    assert |Next(s, step).log| == |s.log| + 1;
  }

  lemma StepKeepsAnswersWrong(t: Tables, s: System, step: Step)
    requires (forall id :: TxnSafe(s, id)) && Enabled(s, step) && !AnswersAreSerial(t, s.log)
    ensures !AnswersAreSerial(t, Next(s, step).log)
  {
    var u := Next(s, step);
    OnlyPublicationsWrite(s, step);
    if u.log != s.log {
      assert u.log == s.log + [u.log[|s.log|]];
      if AnswersAreSerial(t, u.log) {
        AnswersOfPrefix(t, s.log, u.log[|s.log|]);
      }
    }
  }

  lemma {:induction false} RunKeepsSerial(s: System, steps: seq<Step>)
    requires Quiet(s) && Consistent(s.tables) && Exec(s, steps).Some?
    ensures AnswersAreSerial(s.tables, Exec(s, steps).value.log) <==> RefundsAsRead(s, steps)
    ensures RefundsAsRead(s, steps) ==>
        Exec(s, steps).value.tables == RunSerial(s.tables, Ops(Exec(s, steps).value.log))
  {
    if steps != [] {
      var front, step := steps[..|steps| - 1], steps[|steps| - 1];
      RunKeepsSerial(s, front);
      QuietIsSafe(s);
      RunKeepsSafe(s, front);
      if RefundsAsRead(s, front) {
        StepKeepsSerial(s.tables, Exec(s, front).value, step);
      } else {
        StepKeepsAnswersWrong(s.tables, Exec(s, front).value, step);
      }
    }
  }

  /**
   In every interleaving in which each published refund finds its receipt as it read it, the tables
   equal those of running the published transactions one at a time in publication order; whatever
   aborted left nothing.
   */
  lemma {:induction false} Serialisable(s: System, steps: seq<Step>)
    requires Quiet(s) && Consistent(s.tables) && Exec(s, steps).Some? && RefundsAsRead(s, steps)
    ensures Exec(s, steps).value.tables == RunSerial(s.tables, Ops(Exec(s, steps).value.log))
  {
    RunKeepsSerial(s, steps);
  }

  /** The condition is exact: only then does every published transaction answer what it answers in the serial run. */
  lemma {:induction false} AnswersSerialisableExactly(s: System, steps: seq<Step>)
    requires Quiet(s) && Consistent(s.tables) && Exec(s, steps).Some?
    ensures AnswersAreSerial(s.tables, Exec(s, steps).value.log) <==> RefundsAsRead(s, steps)
  {
    RunKeepsSerial(s, steps);
  }

  /** It holds whenever no two refunds of one receipt overlap. */
  lemma {:induction false} NoOverlapMeansAsRead(s: System, steps: seq<Step>)
    requires Quiet(s) && Consistent(s.tables) && Exec(s, steps).Some? && NoRefundOverlap(s, steps)
    ensures RefundsAlone(Exec(s, steps).value) && RefundsAsRead(s, steps)
  {
    if steps != [] {
      var front, step := steps[..|steps| - 1], steps[|steps| - 1];
      NoOverlapMeansAsRead(s, front);
      QuietIsSafe(s);
      RunKeepsSafe(s, front);
      var m := Exec(s, front).value;
      StepKeepsRefundsAlone(m, step);
      assert step.Publish? ==> RefundAlone(m, step.id);
    }
  }

  // ---- calls that end without publishing -----------------------------------------------------------

  /** The call as a transaction run alone. */
  function OpOf(txn: Txn, now: int): Op
    requires !txn.Ended? && !txn.Aborted?
  {
    match txn
    case CommitCalled(card, req, st) => CommitOp(card, req, st, now)
    case CommitUnseen(card, req, st) => CommitOp(card, req, st, now)
    case CommitHolding(row, req, st, _) => CommitOp(row, req, st, now)
    case RefundCalled(receiptId, actorId) => RefundOp(receiptId, actorId, now)
    case RefundSeen(rec, actorId) => RefundOp(rec.id, actorId, now)
    case RefundHolding(rec, _, actorId, _) => RefundOp(rec.id, actorId, now)
    case AdjustCalled(card, delta, reason, actorId) => AdjustOp(card, delta, reason, actorId, now)
    case AdjustHolding(card, _, delta, reason, actorId, _) => AdjustOp(card, delta, reason, actorId, now)
    case Enrolling(row) => CreateOp(row)
  }

  /** A commit past its read of the receipts, whose id another commit has published meanwhile. */
  predicate Loser(s: System, id: nat) {
    && id in s.txns && (s.txns[id].CommitUnseen? || s.txns[id].CommitHolding?)
    && s.txns[id].req.receiptId in s.tables.receipts
  }

  lemma ReadAnswersAlone(s: System, id: nat, now: int)
    requires Safe(s) && Enabled(s, Read(id)) && ReadStep(s, id).txns[id].Ended?
    ensures ReadStep(s, id).txns[id].answer == Perform(s.tables, OpOf(s.txns[id], now)).1
  {
    assert TxnSafe(s, id);
  }

  lemma LockAnswersAloneExactly(s: System, id: nat, at: int, now: int)
    requires Safe(s) && Enabled(s, Lock(id, at)) && LockStep(s, id, at).txns[id].Ended?
    ensures LockStep(s, id, at).txns[id].answer == Perform(s.tables, OpOf(s.txns[id], now)).1 <==> !Loser(s, id)
  {
    assert TxnSafe(s, id);
  }

  lemma PublishAnswersAloneExactly(s: System, id: nat, now: int)
    requires Safe(s) && Enabled(s, Publish(id)) && PublishStep(s, id).log == s.log
    ensures PublishStep(s, id).txns[id].Ended?
    ensures PublishStep(s, id).txns[id].answer == Perform(s.tables, OpOf(s.txns[id], now)).1 <==> !Loser(s, id)
  {
    assert TxnSafe(s, id);
  }

  /** A call that ends without publishing answers what it would alone at that moment, exactly unless it is a loser. */
  lemma UnpublishedAnswersExactly(s: System, step: Step, now: int)
    requires Safe(s) && Enabled(s, step) && (step.Read? || step.Lock? || step.Publish?)
    requires Next(s, step).log == s.log && Next(s, step).txns[step.id].Ended?
    ensures Next(s, step).txns[step.id].answer == Perform(s.tables, OpOf(s.txns[step.id], now)).1
            <==> !Loser(s, step.id)
  {
    match step
    case Read(id) => ReadAnswersAlone(s, id, now);
    case Lock(id, at) => LockAnswersAloneExactly(s, id, at, now);
    case Publish(id) => PublishAnswersAloneExactly(s, id, now);
  }

  // ---- a call left alone ---------------------------------------------------------------------------

  /** A call that has passed its checks and not yet read anything. */
  predicate Begun(txn: Txn) {
    txn.CommitCalled? || txn.RefundCalled? || txn.AdjustCalled? || txn.Enrolling?
  }

  /** The call's own next step. */
  function Onward(txn: Txn, id: nat, now: int): Step {
    if txn.CommitCalled? || txn.RefundCalled? then Read(id)
    else if Wanted(txn).Some? then Lock(id, now)
    else Publish(id)
  }

  function StepsLeft(txn: Txn): nat {
    match txn
    case CommitCalled(_, _, _) => 3
    case RefundCalled(_, _) => 3
    case CommitUnseen(_, _, _) => 2
    case RefundSeen(_, _) => 2
    case AdjustCalled(_, _, _, _) => 2
    case Ended(_) => 0
    case Aborted => 0
    case _ => 1
  }

  lemma ReadLeavesFewer(s: System, id: nat)
    requires Enabled(s, Read(id))
    ensures id in ReadStep(s, id).txns && StepsLeft(ReadStep(s, id).txns[id]) < StepsLeft(s.txns[id])
  {
  }

  lemma LockLeavesFewer(s: System, id: nat, now: int)
    requires Enabled(s, Lock(id, now))
    ensures id in LockStep(s, id, now).txns && StepsLeft(LockStep(s, id, now).txns[id]) < StepsLeft(s.txns[id])
  {
  }

  lemma OnwardLeavesFewer(s: System, id: nat, now: int)
    requires id in s.txns && StepsLeft(s.txns[id]) > 0 && Enabled(s, Onward(s.txns[id], id, now))
    ensures var u := Next(s, Onward(s.txns[id], id, now));
            id in u.txns && StepsLeft(u.txns[id]) < StepsLeft(s.txns[id])
  {
    match Onward(s.txns[id], id, now)
    case Read(_) => ReadLeavesFewer(s, id);
    case Lock(_, _) => LockLeavesFewer(s, id, now);
    case Publish(_) => PublicationEnds(s, id);
  }

  /** The call takes its own steps to the end, and nothing else moves. */
  ghost function RunAlone(s: System, id: nat, now: int): System
    requires id in s.txns
    decreases StepsLeft(s.txns[id])
  {
    var step := Onward(s.txns[id], id, now);
    if StepsLeft(s.txns[id]) == 0 || !Enabled(s, step) then s
    else
      OnwardLeavesFewer(s, id, now);
      RunAlone(Next(s, step), id, now)
  }

  lemma OneMoreAlone(s: System, id: nat, now: int)
    requires id in s.txns && StepsLeft(s.txns[id]) > 0 && Enabled(s, Onward(s.txns[id], id, now))
    ensures id in Next(s, Onward(s.txns[id], id, now)).txns
    ensures RunAlone(s, id, now) == RunAlone(Next(s, Onward(s.txns[id], id, now)), id, now)
  {
    OnwardLeavesFewer(s, id, now);
  }

  lemma OverIsDone(s: System, id: nat, now: int)
    requires id in s.txns && s.txns[id].Ended?
    ensures RunAlone(s, id, now) == s
  {
  }

  /** The call has ended, and did and answered what its transaction does run alone. */
  ghost predicate DoesAsAlone(t: Tables, op: Op, u: System, id: nat) {
    id in u.txns && u.txns[id].Ended? && (u.tables, u.txns[id].answer) == Perform(t, op)
  }

  /** What it has read is what is stored. */
  predicate Reads(s: System, id: nat) {
    id in s.txns && s.txns[id].RefundSeen? ==>
      s.txns[id].rec.id in s.tables.receipts && s.txns[id].rec == s.tables.receipts[s.txns[id].rec.id]
  }

  lemma LockKeepsOp(s: System, id: nat, now: int)
    requires Safe(s) && Enabled(s, Lock(id, now)) && !Loser(s, id) && Reads(s, id)
    requires !LockStep(s, id, now).txns[id].Ended?
    ensures var m := LockStep(s, id, now);
            && Holding(m.txns[id]) && m.tables == s.tables && m.log == s.log && AsRead(m, Publish(id)) && !Loser(m, id)
            && Perform(s.tables, OpOf(m.txns[id], now)) == Perform(s.tables, OpOf(s.txns[id], now))
            && PublishStep(m, id).log != m.log
            && Perform(s.tables, PublishStep(m, id).log[|m.log|].op) == Perform(s.tables, OpOf(m.txns[id], now))
            && PublishStep(m, id).txns[id] == Ended(PublishStep(m, id).log[|m.log|].answer)
  {
    assert TxnSafe(s, id);
    var m := LockStep(s, id, now);
    assert |PublishStep(m, id).log| == |m.log| + 1;
  }

  lemma LockedAlone(s: System, id: nat, now: int)
    requires Safe(s) && Enabled(s, Lock(id, now)) && !Loser(s, id) && Reads(s, id)
    ensures DoesAsAlone(s.tables, OpOf(s.txns[id], now), RunAlone(s, id, now), id)
  {
    var m := LockStep(s, id, now);
    OneMoreAlone(s, id, now);
    if m.txns[id].Ended? {
      LockAnswersAloneExactly(s, id, now, now);
      OverIsDone(m, id, now);
    } else {
      LockKeepsSafe(s, id, now);
      LockKeepsOp(s, id, now);
      PublishedAlone(m, id, now);
    }
  }

  lemma PublishedAlone(s: System, id: nat, now: int)
    requires Safe(s) && Enabled(s, Publish(id)) && Holding(s.txns[id]) && AsRead(s, Publish(id))
    requires PublishStep(s, id).log != s.log && |PublishStep(s, id).log| == |s.log| + 1
    requires PublishStep(s, id).txns[id] == Ended(PublishStep(s, id).log[|s.log|].answer)
    requires Perform(s.tables, PublishStep(s, id).log[|s.log|].op) == Perform(s.tables, OpOf(s.txns[id], now))
    ensures DoesAsAlone(s.tables, OpOf(s.txns[id], now), RunAlone(s, id, now), id)
  {
    OneMoreAlone(s, id, now);
    PublicationIsSerial(s, Publish(id));
    OverIsDone(PublishStep(s, id), id, now);
  }

  lemma EnrolledAlone(s: System, id: nat, now: int)
    requires Safe(s) && id in s.txns && s.txns[id].Enrolling?
    ensures DoesAsAlone(s.tables, OpOf(s.txns[id], now), RunAlone(s, id, now), id)
  {
    OneMoreAlone(s, id, now);
    OverIsDone(PublishStep(s, id), id, now);
  }

  lemma ReadKeepsOp(s: System, id: nat, now: int)
    requires Safe(s) && Enabled(s, Read(id)) && !ReadStep(s, id).txns[id].Ended?
    ensures var m := ReadStep(s, id);
            && m.tables == s.tables && m.locks == s.locks && Wanted(m.txns[id]).Some? && !Loser(m, id) && Reads(m, id)
            && OpOf(m.txns[id], now) == OpOf(s.txns[id], now)
  {
  }

  /** A call nothing disturbs ends, and does and answers what its transaction does run alone. */
  lemma AloneIsPerform(s: System, id: nat, now: int)
    requires Safe(s) && s.locks == map[] && id in s.txns && Begun(s.txns[id])
    ensures DoesAsAlone(s.tables, OpOf(s.txns[id], now), RunAlone(s, id, now), id)
  {
    if s.txns[id].Enrolling? {
      EnrolledAlone(s, id, now);
    } else if s.txns[id].AdjustCalled? {
      LockedAlone(s, id, now);
    } else {
      var m := ReadStep(s, id);
      OneMoreAlone(s, id, now);
      if m.txns[id].Ended? {
        ReadAnswersAlone(s, id, now);
        OverIsDone(m, id, now);
      } else {
        ReadKeepsSafe(s, id);
        ReadKeepsOp(s, id, now);
        LockedAlone(m, id, now);
      }
    }
  }

  // ---- commits that lose their receipt id ------------------------------------------------------------

  lemma OverStaysOver(s: System, step: Step, id: nat)
    requires id in s.txns && (s.txns[id].Ended? || s.txns[id].Aborted?) && Enabled(s, step)
    ensures id in Next(s, step).txns && Next(s, step).txns[id] == s.txns[id]
  {
    if Actor(step) != Some(id) {
      StepMovesItsActor(s, step, id);
    }
  }

  lemma {:induction false} EndedStaysEnded(s: System, steps: seq<Step>, id: nat)
    requires id in s.txns && s.txns[id].Ended? && Exec(s, steps).Some?
    ensures id in Exec(s, steps).value.txns && Exec(s, steps).value.txns[id] == s.txns[id]
  {
    if steps != [] {
      var front, step := steps[..|steps| - 1], steps[|steps| - 1];
      EndedStaysEnded(s, front, id);
      OverStaysOver(Exec(s, front).value, step, id);
    }
  }

  /** A loser that holds its row publishes nothing: its own step ends it with a violation, or aborts it. */
  lemma HoldingLoserSteps(s: System, step: Step, id: nat)
    requires Loser(s, id) && s.txns[id].CommitHolding? && Enabled(s, step)
    ensures id in Next(s, step).txns
    ensures Next(s, step).txns[id] in {s.txns[id], Aborted, Ended(CommitAnswer(Failure(Violation)))}
  {
    if Actor(step) != Some(id) {
      StepMovesItsActor(s, step, id);
    }
  }

  lemma {:induction false} HoldingLoserEnds(s: System, steps: seq<Step>, id: nat)
    requires Safe(s) && Loser(s, id) && s.txns[id].CommitHolding? && Exec(s, steps).Some?
    ensures var u := Exec(s, steps).value;
            id in u.txns && u.txns[id] in {s.txns[id], Aborted, Ended(CommitAnswer(Failure(Violation)))}
  {
    if steps != [] {
      var front, step := steps[..|steps| - 1], steps[|steps| - 1];
      HoldingLoserEnds(s, front, id);
      RunKeepsSafe(s, front);
      var m := Exec(s, front).value;
      if m.txns[id].CommitHolding? {
        HoldingLoserSteps(m, step, id);
      } else {
        OverStaysOver(m, step, id);
      }
    }
  }

  /**
   What a losing commit answers, whatever else runs: the refusal of the row it re-reads under the
   lock if there is one, otherwise the primary key's violation; never success, never a replay.
   */
  lemma LosingCommitAnswers(s: System, id: nat, now: int, steps: seq<Step>)
    requires Safe(s) && Loser(s, id) && s.txns[id].CommitUnseen? && Enabled(s, Lock(id, now))
    requires Exec(LockStep(s, id, now), steps).Some?
    ensures s.txns[id].card.id in s.tables.customers
    ensures var u := Exec(LockStep(s, id, now), steps).value;
            var why := CommitRefusal(s.tables.customers[s.txns[id].card.id], s.txns[id].req, s.txns[id].st);
            && id in u.txns
            && (why.Some? ==> u.txns[id] == Ended(CommitAnswer(Failure(Refused(why.value)))))
            && (why.None? && u.txns[id].Ended? ==> u.txns[id].answer == CommitAnswer(Failure(Violation)))
  {
    assert TxnSafe(s, id);
    var m := LockStep(s, id, now);
    LockKeepsSafe(s, id, now);
    if m.txns[id].Ended? {
      EndedStaysEnded(m, steps, id);
    } else {
      HoldingLoserEnds(m, steps, id);
    }
  }

  // ---- what overlapping refunds do ---------------------------------------------------------------

  /**
   Published from a stale read, a refund posts the same rows as one run alone exactly when its
   receipt is still committed, or there is nothing to reverse or return.
   */
  lemma RefundIsSerialUnlessStale(s: System, id: nat)
    requires Safe(s) && id in s.txns && s.txns[id].RefundHolding?
    ensures s.txns[id].rec.id in s.tables.receipts
    ensures var rec, row := s.txns[id].rec, s.txns[id].row;
            var alone := RefundTx(s.tables, rec.id, s.txns[id].actorId, s.txns[id].now).0;
            var nothingToPost := rec.redeemPoints == 0 && (rec.earnPoints == 0 || row.points == 0);
            (PublishStep(s, id).tables.ledger == alone.ledger) ==
            (s.tables.receipts[rec.id].status == Committed || nothingToPost)
  {
    assert TxnSafe(s, id);
    var rec, row := s.txns[id].rec, s.txns[id].row;
    PointsNonNegative(s.tables, row.id);
    var rows := RefundRows(rec, row.points, s.txns[id].actorId, s.txns[id].now);
    assert s.tables.receipts[rec.id].status == Refunded ==> (s.tables.ledger + rows == s.tables.ledger <==> rows == []);
    if s.tables.receipts[rec.id].status == Committed {
      assert PublishRefund(s.tables, rec, row, s.txns[id].actorId, s.txns[id].now).ledger == s.tables.ledger + rows;
      assert RefundRows(s.tables.receipts[rec.id], row.points, s.txns[id].actorId, s.txns[id].now) == rows;
    }
  }

  lemma ExecSnoc(s: System, steps: seq<Step>, step: Step)
    requires Exec(s, steps).Some? && Enabled(Exec(s, steps).value, step)
    ensures Exec(s, steps + [step]) == Some(Next(Exec(s, steps).value, step))
  {
    assert (steps + [step])[..|steps|] == steps;
  }

  /** Two refunds of one receipt that both read it before either publishes. */
  function BothRead(receiptId: string, actorId: string): seq<Step> {
    var call := RefundCalled(receiptId, actorId);
    [] + [Begin(1, call)] + [Begin(2, call)] + [Read(1)] + [Read(2)]
  }

  function BothPublish(now: int): seq<Step> {
    [] + [Lock(1, now)] + [Publish(1)] + [Lock(2, now)] + [Publish(2)]
  }

  lemma BothReadRuns(s: System, receiptId: string, actorId: string)
    requires Quiet(s) && receiptId in s.tables.receipts && s.tables.receipts[receiptId].status == Committed
    ensures var rec := s.tables.receipts[receiptId];
            Exec(s, BothRead(receiptId, actorId))
              == Some(s.(txns := map[1 := RefundSeen(rec, actorId), 2 := RefundSeen(rec, actorId)]))
  {
    var call := RefundCalled(receiptId, actorId);
    var steps := [Begin(1, call), Begin(2, call), Read(1), Read(2)];
    ExecSnoc(s, [], steps[0]);
    ExecSnoc(s, [] + [steps[0]], steps[1]);
    ExecSnoc(s, [] + [steps[0]] + [steps[1]], steps[2]);
    ExecSnoc(s, [] + [steps[0]] + [steps[1]] + [steps[2]], steps[3]);
    var seen := RefundSeen(s.tables.receipts[receiptId], actorId);
    assert map[][1 := call][2 := call][1 := seen][2 := seen] == map[1 := seen, 2 := seen];
  }

  /** The first refund of the two, alone on the tables. */
  function RefundedOnce(t: Tables, rec: Receipt, actorId: string, now: int): Tables
    requires rec.customerId in t.customers
  {
    PublishRefund(t, rec, t.customers[rec.customerId], actorId, now)
  }

  /** One refund that has read its receipt locks and publishes. */
  lemma OneRefundPublishes(s: System, id: nat, rec: Receipt, actorId: string, now: int)
    requires s.locks == map[] && id in s.txns && s.txns[id] == RefundSeen(rec, actorId)
    requires rec.customerId in s.tables.customers && s.tables.customers[rec.customerId].id == rec.customerId
    ensures Enabled(s, Lock(id, now)) && Enabled(Next(s, Lock(id, now)), Publish(id))
    ensures var u := Next(Next(s, Lock(id, now)), Publish(id));
            && u.tables == RefundedOnce(s.tables, rec, actorId, now) && u.locks == map[]
            && |u.log| == |s.log| + 1 && u.log[..|s.log|] == s.log
            && u.log[|s.log|].op == RefundOp(rec.id, actorId, now)
            && forall other :: other != id && other in s.txns ==> other in u.txns && u.txns[other] == s.txns[other]
  {
  }

  lemma BothPublishRun(s: System, rec: Receipt, actorId: string, now: int)
    requires s.locks == map[] && s.log == []
    requires s.txns == map[1 := RefundSeen(rec, actorId), 2 := RefundSeen(rec, actorId)]
    requires rec.customerId in s.tables.customers && s.tables.customers[rec.customerId].id == rec.customerId
    ensures Exec(s, BothPublish(now)).Some?
    ensures var u := Exec(s, BothPublish(now)).value;
            var once := RefundedOnce(s.tables, rec, actorId, now);
            && rec.customerId in once.customers
            && u.tables == RefundedOnce(once, rec, actorId, now)
            && |u.log| == 2 && u.log[0].op == u.log[1].op == RefundOp(rec.id, actorId, now)
  {
    OneRefundPublishes(s, 1, rec, actorId, now);
    ExecSnoc(s, [], Lock(1, now));
    ExecSnoc(s, [] + [Lock(1, now)], Publish(1));
    var m := Next(Next(s, Lock(1, now)), Publish(1));
    OneRefundPublishes(m, 2, rec, actorId, now);
    ExecSnoc(s, [] + [Lock(1, now)] + [Publish(1)], Lock(2, now));
    ExecSnoc(s, [] + [Lock(1, now)] + [Publish(1)] + [Lock(2, now)], Publish(2));
    var u := Next(Next(m, Lock(2, now)), Publish(2));
    assert u.log[0] == u.log[..1][0] == m.log[0];
  }

  /**
   The hypothesis is needed: whenever nothing is in flight, two refunds of a committed receipt that
   redeemed points, both reading it before either publishes, leave a ledger no serial run of them leaves.
   */
  lemma OverlappingRefundsDiverge(s: System, receiptId: string, actorId: string, now: int)
    requires Quiet(s) && Consistent(s.tables) && receiptId in s.tables.receipts
    requires s.tables.receipts[receiptId].status == Committed && s.tables.receipts[receiptId].redeemPoints > 0
    ensures var m := Exec(s, BothRead(receiptId, actorId));
            && m.Some? && Exec(m.value, BothPublish(now)).Some?
            && var u := Exec(m.value, BothPublish(now)).value;
               |u.tables.ledger| > |RunSerial(s.tables, Ops(u.log)).ledger|
  {
    var rec := s.tables.receipts[receiptId];
    BothReadRuns(s, receiptId, actorId);
    var m := Exec(s, BothRead(receiptId, actorId)).value;
    BothPublishRun(m, rec, actorId, now);
    var u := Exec(m, BothPublish(now)).value;
    var op := RefundOp(receiptId, actorId, now);
    var once := RefundedOnce(s.tables, rec, actorId, now);
    assert Ops(u.log) == [op, op] && [op, op][..1] == [op] && [op][..0] == [];
    assert RunSerial(s.tables, [op]) == once;
    assert RunSerial(s.tables, [op, op]) == Perform(once, op).0 == once;
  }
}
