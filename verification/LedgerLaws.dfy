/**
 The invariant of the tables, kept by every published transaction whatever row it was computed
 from, as long as that row is the current one.
 */
module LedgerLaws {
  import opened Rules
  import opened RulesLaws
  import opened Tables
  import opened Wrappers

  // ---- sums over the ledger ------------------------------------------------------------------

  /** Which ledger rows a sum is about. */
  datatype Key =
    | OfCustomer(customerId: string)
    | OfReceipt(receiptId: string)
    | OfKind(receiptId: string, reason: Reason)
    | AdjustsOf(customerId: string)

  predicate Matches(row: LedgerRow, key: Key) {
    match key
    case OfCustomer(c) => row.customerId == c
    case OfReceipt(r) => row.receiptId == Some(r)
    case OfKind(r, reason) => row.receiptId == Some(r) && row.reason == reason
    case AdjustsOf(c) => row.customerId == c && row.receiptId == None
  }

  function Total(ledger: seq<LedgerRow>, key: Key): int {
    if ledger == [] then 0
    else
      var last := ledger[|ledger| - 1];
      Total(ledger[..|ledger| - 1], key) + if Matches(last, key) then last.delta else 0
  }

  function Count(ledger: seq<LedgerRow>, key: Key): nat {
    if ledger == [] then 0
    else Count(ledger[..|ledger| - 1], key) + if Matches(ledger[|ledger| - 1], key) then 1 else 0
  }

  lemma {:induction false} TotalConcat(ledger: seq<LedgerRow>, rows: seq<LedgerRow>, key: Key)
    ensures Total(ledger + rows, key) == Total(ledger, key) + Total(rows, key)
    ensures Count(ledger + rows, key) == Count(ledger, key) + Count(rows, key)
  {
    if rows == [] {
      assert ledger + rows == ledger;
    } else {
      var front := rows[..|rows| - 1];
      TotalConcat(ledger, front, key);
      assert (ledger + rows)[..|ledger + rows| - 1] == ledger + front;
    }
  }

  lemma TotalOfOptional(a: seq<LedgerRow>, b: seq<LedgerRow>, key: Key)
    requires |a| <= 1 && |b| <= 1
    ensures Total(a + b, key) == (if a != [] && Matches(a[0], key) then a[0].delta else 0)
                               + (if b != [] && Matches(b[0], key) then b[0].delta else 0)
    ensures Count(a + b, key) == (if a != [] && Matches(a[0], key) then 1 else 0)
                               + (if b != [] && Matches(b[0], key) then 1 else 0)
  {
    TotalConcat(a, b, key);
    TotalOfOne(a, key);
    TotalOfOne(b, key);
  }

  lemma TotalOfOne(a: seq<LedgerRow>, key: Key)
    requires |a| <= 1
    ensures Total(a, key) == (if a != [] && Matches(a[0], key) then a[0].delta else 0)
    ensures Count(a, key) == (if a != [] && Matches(a[0], key) then 1 else 0)
  {
    if a != [] {
      assert a[..|a| - 1] == [];
      assert Total([], key) == 0 && Count([], key) == 0;
    }
  }

  lemma {:induction false} NothingTotalsZero(ledger: seq<LedgerRow>, key: Key)
    requires forall i :: 0 <= i < |ledger| ==> !Matches(ledger[i], key)
    ensures Total(ledger, key) == 0 && Count(ledger, key) == 0
  {
    if ledger != [] {
      NothingTotalsZero(ledger[..|ledger| - 1], key);
    }
  }

  // ---- the invariant -------------------------------------------------------------------------

  ghost predicate CustomersKeyed(customers: map<string, Customer>) {
    forall id :: id in customers ==> customers[id].id == id
  }

  ghost predicate ReceiptsKeyed(receipts: map<string, Receipt>, customers: map<string, Customer>) {
    forall id :: id in receipts ==>
      var r := receipts[id];
      r.id == id && id != "" && r.customerId in customers && r.earnPoints >= 0 && r.redeemPoints >= 0
  }

  ghost predicate RowKeyed(row: LedgerRow, receipts: map<string, Receipt>, customers: map<string, Customer>) {
    && row.customerId in customers
    && (row.receiptId.Some? ==>
          row.receiptId.value in receipts && receipts[row.receiptId.value].customerId == row.customerId)
  }

  ghost predicate LedgerKeyed(ledger: seq<LedgerRow>, receipts: map<string, Receipt>,
                              customers: map<string, Customer>) {
    forall i :: 0 <= i < |ledger| ==> RowKeyed(ledger[i], receipts, customers)
  }

  /** Stored points equal the sum of the customer's ledger deltas. */
  ghost predicate BalancesAgree(customers: map<string, Customer>, ledger: seq<LedgerRow>) {
    forall id :: BalanceAgrees(customers, ledger, id)
  }

  ghost predicate BalanceAgrees(customers: map<string, Customer>, ledger: seq<LedgerRow>, id: string) {
    id in customers ==> customers[id].points == Total(ledger, OfCustomer(id))
  }

  /** Cut the ledger anywhere, even inside a transaction: no customer's sum is below zero. */
  ghost predicate NeverBelowZero(ledger: seq<LedgerRow>) {
    forall k, id :: 0 <= k <= |ledger| ==> CutIsAboveZero(ledger, k, id)
  }

  ghost predicate CutIsAboveZero(ledger: seq<LedgerRow>, k: nat, id: string)
    requires k <= |ledger|
  {
    Total(ledger[..k], OfCustomer(id)) >= 0
  }

  /** The redeem and earn rows of a receipt id: one of each at most, carrying what the receipt says. */
  ghost predicate RowsOnce(id: string, receipts: map<string, Receipt>, ledger: seq<LedgerRow>) {
    var redeem := if id in receipts then receipts[id].redeemPoints else 0;
    var earn := if id in receipts then receipts[id].earnPoints else 0;
    && Count(ledger, OfKind(id, Redeemed)) == (if redeem != 0 then 1 else 0)
    && Count(ledger, OfKind(id, Earned)) == (if earn != 0 then 1 else 0)
    && Total(ledger, OfKind(id, Redeemed)) == -redeem
    && Total(ledger, OfKind(id, Earned)) == earn
  }

  ghost predicate RowsOncePerReceipt(receipts: map<string, Receipt>, ledger: seq<LedgerRow>) {
    forall id :: RowsOnce(id, receipts, ledger)
  }

  /** The unique indexes of the customers table. */
  ghost predicate KeysUnique(customers: map<string, Customer>) {
    forall a, b :: NoClash(customers, a, b)
  }

  ghost predicate NoClash(customers: map<string, Customer>, a: string, b: string) {
    a in customers && b in customers && a != b ==>
      && customers[a].barcode != customers[b].barcode
      && (customers[a].phone != "" ==> customers[a].phone != customers[b].phone)
  }

  /** Every stored barcode has the issued form and every stored phone is valid. */
  ghost predicate CardsIssued(customers: map<string, Customer>) {
    forall id :: CardIssued(customers, id)
  }

  ghost predicate CardIssued(customers: map<string, Customer>, id: string) {
    id in customers ==> Issuable(customers[id])
  }

  ghost predicate Consistent(t: Tables) {
    && CustomersKeyed(t.customers)
    && ReceiptsKeyed(t.receipts, t.customers)
    && LedgerKeyed(t.ledger, t.receipts, t.customers)
    && BalancesAgree(t.customers, t.ledger)
    && NeverBelowZero(t.ledger)
    && RowsOncePerReceipt(t.receipts, t.ledger)
    && KeysUnique(t.customers)
    && CardsIssued(t.customers)
  }

  lemma EmptyIsConsistent()
    ensures Consistent(NO_ROWS)
  {
  }

  lemma PointsNonNegative(t: Tables, id: string)
    requires Consistent(t) && id in t.customers
    ensures t.customers[id].points >= 0
  {
    assert t.ledger[..|t.ledger|] == t.ledger;
    assert CutIsAboveZero(t.ledger, |t.ledger|, id);
    assert BalanceAgrees(t.customers, t.ledger, id);
  }

  // ---- what a transaction may not do to rows it does not publish ------------------------------

  /** Customers keep their identity, receipts only get refunded; nothing disappears. */
  ghost predicate Preserves(t: Tables, u: Tables) {
    && (forall id :: id in t.customers ==> id in u.customers && SameCard(t.customers[id], u.customers[id]))
    && (forall id :: id in t.receipts ==> id in u.receipts && SameSale(t.receipts[id], u.receipts[id]))
    && t.ledger <= u.ledger
  }

  ghost predicate SameCard(a: Customer, b: Customer) {
    a.id == b.id && a.barcode == b.barcode && a.name == b.name && a.phone == b.phone && a.createdAt == b.createdAt
  }

  ghost predicate SameSale(a: Receipt, b: Receipt) {
    && b == a.(status := b.status, pointsAfterRefund := b.pointsAfterRefund, refundedAt := b.refundedAt)
    && (b == a || b.status == Refunded)
  }

  lemma PreservesTransitive(t: Tables, u: Tables, v: Tables)
    requires Preserves(t, u) && Preserves(u, v)
    ensures Preserves(t, v)
  {
  }

  // ---- posting rows for one customer ----------------------------------------------------------

  predicate AllOf(rows: seq<LedgerRow>, customerId: string) {
    forall i :: 0 <= i < |rows| ==> rows[i].customerId == customerId
  }

  /** The balance after each of the rows is not below zero. */
  predicate StaysAboveZero(points: int, rows: seq<LedgerRow>, customerId: string) {
    forall k :: 0 <= k <= |rows| ==> points + Total(rows[..k], OfCustomer(customerId)) >= 0
  }

  lemma PrefixesAfterPost(ledger: seq<LedgerRow>, rows: seq<LedgerRow>, c: string)
    requires NeverBelowZero(ledger) && AllOf(rows, c)
    requires StaysAboveZero(Total(ledger, OfCustomer(c)), rows, c)
    ensures NeverBelowZero(ledger + rows)
  {
    var l := ledger + rows;
    forall k, id | 0 <= k <= |l| ensures CutIsAboveZero(l, k, id) {
      if k <= |ledger| {
        assert CutIsAboveZero(ledger, k, id);
        assert l[..k] == ledger[..k];
      } else {
        var j := k - |ledger|;
        assert l[..k] == ledger + rows[..j] && ledger[..|ledger|] == ledger;
        TotalConcat(ledger, rows[..j], OfCustomer(id));
        if id != c {
          NothingTotalsZero(rows[..j], OfCustomer(id));
        }
        assert CutIsAboveZero(ledger, |ledger|, id);
      }
    }
  }

  lemma PostKeepsBalances(customers: map<string, Customer>, ledger: seq<LedgerRow>, c: string,
                                             rows: seq<LedgerRow>, now: int)
    requires BalancesAgree(customers, ledger) && NeverBelowZero(ledger)
    requires c in customers && AllOf(rows, c) && StaysAboveZero(customers[c].points, rows, c)
    ensures BalancesAgree(Repointed(customers, c, customers[c].points + Total(rows, OfCustomer(c)), now), ledger + rows)
    ensures NeverBelowZero(ledger + rows)
  {
    assert BalanceAgrees(customers, ledger, c);
    PrefixesAfterPost(ledger, rows, c);
    var after := Repointed(customers, c, customers[c].points + Total(rows, OfCustomer(c)), now);
    var longer := ledger + rows;
    forall id ensures BalanceAgrees(after, longer, id) {
      assert BalanceAgrees(customers, ledger, id);
      TotalConcat(ledger, rows, OfCustomer(id));
      if id != c {
        NothingTotalsZero(rows, OfCustomer(id));
      }
    }
  }

  /** A new balance leaves the keys of every table as they were. */
  lemma RepointedKeepsKeys(t: Tables, c: string, points: int, now: int)
    requires c in t.customers
    requires CustomersKeyed(t.customers) && KeysUnique(t.customers) && CardsIssued(t.customers)
    requires ReceiptsKeyed(t.receipts, t.customers) && LedgerKeyed(t.ledger, t.receipts, t.customers)
    ensures var customers := Repointed(t.customers, c, points, now);
            && CustomersKeyed(customers) && KeysUnique(customers) && CardsIssued(customers)
            && ReceiptsKeyed(t.receipts, customers) && LedgerKeyed(t.ledger, t.receipts, customers)
  {
    var customers := Repointed(t.customers, c, points, now);
    assert forall id :: id in t.customers ==>
      customers[id].id == t.customers[id].id && customers[id].barcode == t.customers[id].barcode
          && customers[id].phone == t.customers[id].phone;
    forall a, b ensures NoClash(customers, a, b) {
      assert NoClash(t.customers, a, b);
    }
    forall id ensures CardIssued(customers, id) {
      assert CardIssued(t.customers, id);
    }
    forall i | 0 <= i < |t.ledger| ensures RowKeyed(t.ledger[i], t.receipts, customers) {
      assert RowKeyed(t.ledger[i], t.receipts, t.customers);
    }
  }

  lemma AppendedRowsKeyed(ledger: seq<LedgerRow>, rows: seq<LedgerRow>,
                                             receipts: map<string, Receipt>, customers: map<string, Customer>)
    requires LedgerKeyed(ledger, receipts, customers) && LedgerKeyed(rows, receipts, customers)
    ensures LedgerKeyed(ledger + rows, receipts, customers)
  {
    forall i | 0 <= i < |ledger + rows| ensures RowKeyed((ledger + rows)[i], receipts, customers) {
      if i < |ledger| {
        assert RowKeyed(ledger[i], receipts, customers);
      } else {
        assert RowKeyed(rows[i - |ledger|], receipts, customers);
      }
    }
  }

  /** Receipts may be added and marked, as long as the rows that name them still agree. */
  lemma ReceiptChangeKeepsLedgerKeyed(ledger: seq<LedgerRow>, receipts: map<string, Receipt>, rec: Receipt,
                                                         customers: map<string, Customer>)
    requires LedgerKeyed(ledger, receipts, customers)
    requires rec.id in receipts ==> receipts[rec.id].customerId == rec.customerId
    ensures LedgerKeyed(ledger, receipts[rec.id := rec], customers)
  {
    forall i | 0 <= i < |ledger| ensures RowKeyed(ledger[i], receipts[rec.id := rec], customers) {
      assert RowKeyed(ledger[i], receipts, customers);
    }
  }

  lemma OptionalRowsStayAboveZero(points: int, a: seq<LedgerRow>, b: seq<LedgerRow>, c: string)
    requires |a| <= 1 && |b| <= 1 && AllOf(a + b, c) && points >= 0
    requires a != [] ==> points + a[0].delta >= 0
    requires b != [] ==> b[0].delta >= 0
    ensures StaysAboveZero(points, a + b, c)
  {
    forall k | 0 <= k <= |a + b| ensures points + Total((a + b)[..k], OfCustomer(c)) >= 0 {
      var x, y := if k < |a| then k else |a|, if k <= |a| then 0 else k - |a|;
      assert (a + b)[..k] == a[..x] + b[..y];
      TotalOfOptional(a[..x], b[..y], OfCustomer(c));
      assert a != [] ==> (a + b)[0] == a[0];
    }
  }

  /** One balance changed, one receipt added or marked, rows appended: everything else is preserved. */
  lemma PostPreserves(t: Tables, c: string, points: int, rows: seq<LedgerRow>, rec: Receipt, now: int)
    requires c in t.customers
    requires rec.id in t.receipts ==> SameSale(t.receipts[rec.id], rec)
    ensures Preserves(t, Tables(Repointed(t.customers, c, points, now), t.receipts[rec.id := rec], t.ledger + rows))
  {
  }

  // ---- each publication keeps the invariant ---------------------------------------------------

  /** A commit published from the current row with a free receipt id, after the checks. */
  ghost predicate MayPublishCommit(t: Tables, row: Customer, req: CommitInput, st: Settings) {
    && row.id in t.customers && t.customers[row.id] == row
    && GoodInput(req) && req.receiptId !in t.receipts
    && CommitRefusal(row, req, st).None?
  }

  /** A refund published from the current row, whatever has happened to the receipt since it was read. */
  ghost predicate MayPublishRefund(t: Tables, rec: Receipt, row: Customer) {
    && rec.id in t.receipts && SameSale(rec, t.receipts[rec.id])
    && row.id == rec.customerId && row.id in t.customers && t.customers[row.id] == row
  }

  lemma CommitRowsTotals(rec: Receipt, now: int, key: Key)
    requires rec.id != ""
    ensures AllOf(CommitRows(rec, now), rec.customerId)
    ensures forall i :: 0 <= i < |CommitRows(rec, now)| ==> CommitRows(rec, now)[i].receiptId == Some(rec.id)
    ensures Total(CommitRows(rec, now), key) ==
              match key
              case OfCustomer(c) => if c == rec.customerId then rec.earnPoints - rec.redeemPoints else 0
              case OfReceipt(r) => if r == rec.id then rec.earnPoints - rec.redeemPoints else 0
              case OfKind(r, Redeemed) => if r == rec.id then -rec.redeemPoints else 0
              case OfKind(r, Earned) => if r == rec.id then rec.earnPoints else 0
              case _ => 0
    ensures Count(CommitRows(rec, now), key) <= 2
    ensures forall r :: key == OfKind(r, Redeemed) ==>
              Count(CommitRows(rec, now), key) == if r == rec.id && rec.redeemPoints != 0 then 1 else 0
    ensures forall r :: key == OfKind(r, Earned) ==>
              Count(CommitRows(rec, now), key) == if r == rec.id && rec.earnPoints != 0 then 1 else 0
  {
    var a := if rec.redeemPoints == 0 then []
             else [LedgerRow(rec.customerId, Some(rec.id), -rec.redeemPoints, Redeemed, rec.staffId, now)];
    var b := if rec.earnPoints == 0 then []
             else [LedgerRow(rec.customerId, Some(rec.id), rec.earnPoints, Earned, rec.staffId, now)];
    assert CommitRows(rec, now) == a + b;
    TotalOfOptional(a, b, key);
  }

  lemma CommitRowsStayAboveZero(rec: Receipt, points: int, now: int)
    requires rec.id != "" && 0 <= rec.redeemPoints <= points && rec.earnPoints >= 0
    ensures StaysAboveZero(points, CommitRows(rec, now), rec.customerId)
  {
    var a := if rec.redeemPoints == 0 then []
             else [LedgerRow(rec.customerId, Some(rec.id), -rec.redeemPoints, Redeemed, rec.staffId, now)];
    var b := if rec.earnPoints == 0 then []
             else [LedgerRow(rec.customerId, Some(rec.id), rec.earnPoints, Earned, rec.staffId, now)];
    assert CommitRows(rec, now) == a + b;
    OptionalRowsStayAboveZero(points, a, b, rec.customerId);
  }

  lemma CommitKeepsBalances(t: Tables, rec: Receipt, now: int)
    requires BalancesAgree(t.customers, t.ledger) && NeverBelowZero(t.ledger)
    requires rec.id != "" && rec.customerId in t.customers && rec.earnPoints >= 0
    requires 0 <= rec.redeemPoints <= t.customers[rec.customerId].points
    ensures var points := t.customers[rec.customerId].points - rec.redeemPoints + rec.earnPoints;
            BalancesAgree(Repointed(t.customers, rec.customerId, points, now), t.ledger + CommitRows(rec, now))
    ensures NeverBelowZero(t.ledger + CommitRows(rec, now))
  {
    CommitRowsTotals(rec, now, OfCustomer(rec.customerId));
    CommitRowsStayAboveZero(rec, t.customers[rec.customerId].points, now);
    PostKeepsBalances(t.customers, t.ledger, rec.customerId, CommitRows(rec, now), now);
  }

  lemma CommitKeepsRowsOnce(t: Tables, rec: Receipt, now: int)
    requires RowsOncePerReceipt(t.receipts, t.ledger)
    requires rec.id != "" && rec.id !in t.receipts
    ensures RowsOncePerReceipt(t.receipts[rec.id := rec], t.ledger + CommitRows(rec, now))
  {
    var rows := CommitRows(rec, now);
    var receipts, ledger := t.receipts[rec.id := rec], t.ledger + rows;
    forall id ensures RowsOnce(id, receipts, ledger) {
      assert RowsOnce(id, t.receipts, t.ledger);
      TotalConcat(t.ledger, rows, OfKind(id, Redeemed));
      TotalConcat(t.ledger, rows, OfKind(id, Earned));
      CommitRowsTotals(rec, now, OfKind(id, Redeemed));
      CommitRowsTotals(rec, now, OfKind(id, Earned));
    }
  }

  lemma CommitKeepsKeys(t: Tables, rec: Receipt, points: int, now: int)
    requires CustomersKeyed(t.customers) && KeysUnique(t.customers) && CardsIssued(t.customers)
    requires ReceiptsKeyed(t.receipts, t.customers) && LedgerKeyed(t.ledger, t.receipts, t.customers)
    requires rec.id != "" && rec.id !in t.receipts && rec.customerId in t.customers
    requires rec.earnPoints >= 0 && rec.redeemPoints >= 0
    ensures var customers := Repointed(t.customers, rec.customerId, points, now);
            && CustomersKeyed(customers) && KeysUnique(customers) && CardsIssued(customers)
            && ReceiptsKeyed(t.receipts[rec.id := rec], customers)
            && LedgerKeyed(t.ledger + CommitRows(rec, now), t.receipts[rec.id := rec], customers)
  {
    var rows := CommitRows(rec, now);
    var receipts := t.receipts[rec.id := rec];
    CommitRowsTotals(rec, now, OfReceipt(rec.id));
    ReceiptChangeKeepsLedgerKeyed(t.ledger, t.receipts, rec, t.customers);
    forall i | 0 <= i < |rows| ensures RowKeyed(rows[i], receipts, t.customers) {
    }
    AppendedRowsKeyed(t.ledger, rows, receipts, t.customers);
    RepointedKeepsKeys(Tables(t.customers, receipts, t.ledger + rows), rec.customerId, points, now);
  }

  /** The tables after storing a receipt, its rows and the balance it leaves. */
  function Sold(t: Tables, rec: Receipt, now: int): Tables
    requires rec.customerId in t.customers
  {
    Tables(Repointed(t.customers, rec.customerId,
                     t.customers[rec.customerId].points - rec.redeemPoints + rec.earnPoints, now),
           t.receipts[rec.id := rec], t.ledger + CommitRows(rec, now))
  }

  lemma SaleKeepsConsistent(t: Tables, rec: Receipt, now: int)
    requires Consistent(t)
    requires rec.id != "" && rec.id !in t.receipts && rec.customerId in t.customers && rec.earnPoints >= 0
    requires 0 <= rec.redeemPoints <= t.customers[rec.customerId].points
    ensures Consistent(Sold(t, rec, now))
  {
    CommitKeepsBalances(t, rec, now);
    CommitKeepsRowsOnce(t, rec, now);
    CommitKeepsKeys(t, rec, t.customers[rec.customerId].points - rec.redeemPoints + rec.earnPoints, now);
  }

  lemma CommitShape(t: Tables, row: Customer, req: CommitInput, st: Settings, now: int)
    requires MayPublishCommit(t, row, req, st) && row.points >= 0
    ensures var rec := CommitReceipt(row, req, st, now);
            && rec.earnPoints >= 0 && 0 <= rec.redeemPoints <= row.points
            && PublishCommit(t, row, req, st, now) == Sold(t, rec, now)
  {
    EarnNonNegative(req.amountRub, req.redeemPoints, st);
  }

  lemma CommitPreserves(t: Tables, row: Customer, req: CommitInput, st: Settings, now: int)
    requires MayPublishCommit(t, row, req, st) && row.points >= 0
    ensures Preserves(t, PublishCommit(t, row, req, st, now))
  {
    var rec := CommitReceipt(row, req, st, now);
    CommitShape(t, row, req, st, now);
    PostPreserves(t, row.id, rec.pointsAfter, CommitRows(rec, now), rec, now);
  }

  lemma CommitKeepsConsistent(t: Tables, row: Customer, req: CommitInput, st: Settings, now: int)
    requires Consistent(t) && MayPublishCommit(t, row, req, st)
    ensures Consistent(PublishCommit(t, row, req, st, now))
  {
    PointsNonNegative(t, row.id);
    CommitShape(t, row, req, st, now);
    SaleKeepsConsistent(t, CommitReceipt(row, req, st, now), now);
  }

  lemma RefundRowsTotals(rec: Receipt, points: int, actorId: string, now: int, key: Key)
    requires rec.id != "" && points >= 0 && rec.earnPoints >= 0 && rec.redeemPoints >= 0
    ensures var rows, net := RefundRows(rec, points, actorId, now), RefundedPoints(rec, points) - points;
            && AllOf(rows, rec.customerId)
            && (forall i :: 0 <= i < |rows| ==> rows[i].receiptId == Some(rec.id))
            && StaysAboveZero(points, rows, rec.customerId)
            && (key.OfCustomer? ==> Total(rows, key) == if key.customerId == rec.customerId then net else 0)
            && (key.OfReceipt? ==> Total(rows, key) == if key.receiptId == rec.id then net else 0)
            && (key.OfKind? && key.reason in {Redeemed, Earned} ==> Total(rows, key) == 0 && Count(rows, key) == 0)
            && (key.AdjustsOf? ==> Total(rows, key) == 0)
  {
    var rev := Reversal(rec, points);
    var a := if rev == 0 then [] else [LedgerRow(rec.customerId, Some(rec.id), -rev, EarnReversed, actorId, now)];
    var b := if Returned(rec) == 0 then []
             else [LedgerRow(rec.customerId, Some(rec.id), Returned(rec), RedeemReturned, actorId, now)];
    assert RefundRows(rec, points, actorId, now) == a + b;
    TotalOfOptional(a, b, key);
    OptionalRowsStayAboveZero(points, a, b, rec.customerId);
  }

  lemma RefundKeepsBalances(t: Tables, rec: Receipt, actorId: string, now: int)
    requires BalancesAgree(t.customers, t.ledger) && NeverBelowZero(t.ledger)
    requires rec.id != "" && rec.customerId in t.customers && t.customers[rec.customerId].points >= 0
    requires rec.earnPoints >= 0 && rec.redeemPoints >= 0
    ensures var points := t.customers[rec.customerId].points;
            BalancesAgree(Repointed(t.customers, rec.customerId, RefundedPoints(rec, points), now),
                          t.ledger + RefundRows(rec, points, actorId, now))
    ensures NeverBelowZero(t.ledger + RefundRows(rec, t.customers[rec.customerId].points, actorId, now))
  {
    var points := t.customers[rec.customerId].points;
    RefundRowsTotals(rec, points, actorId, now, OfCustomer(rec.customerId));
    PostKeepsBalances(t.customers, t.ledger, rec.customerId, RefundRows(rec, points, actorId, now), now);
  }

  lemma RefundKeepsRowsOnce(t: Tables, rec: Receipt, marked: Receipt, points: int, actorId: string, now: int)
    requires RowsOncePerReceipt(t.receipts, t.ledger)
    requires rec.id != "" && points >= 0 && rec.earnPoints >= 0 && rec.redeemPoints >= 0
    requires rec.id in t.receipts && SameSale(t.receipts[rec.id], marked)
    ensures RowsOncePerReceipt(t.receipts[rec.id := marked], t.ledger + RefundRows(rec, points, actorId, now))
  {
    var rows := RefundRows(rec, points, actorId, now);
    var receipts, ledger := t.receipts[rec.id := marked], t.ledger + rows;
    forall id ensures RowsOnce(id, receipts, ledger) {
      assert RowsOnce(id, t.receipts, t.ledger);
      TotalConcat(t.ledger, rows, OfKind(id, Redeemed));
      TotalConcat(t.ledger, rows, OfKind(id, Earned));
      RefundRowsTotals(rec, points, actorId, now, OfKind(id, Redeemed));
      RefundRowsTotals(rec, points, actorId, now, OfKind(id, Earned));
    }
  }

  lemma RefundKeepsKeys(t: Tables, rec: Receipt, marked: Receipt, points: int, newPoints: int, actorId: string,
                        now: int)
    requires CustomersKeyed(t.customers) && KeysUnique(t.customers) && CardsIssued(t.customers)
    requires ReceiptsKeyed(t.receipts, t.customers) && LedgerKeyed(t.ledger, t.receipts, t.customers)
    requires rec.id != "" && points >= 0 && rec.earnPoints >= 0 && rec.redeemPoints >= 0
    requires rec.id in t.receipts && SameSale(t.receipts[rec.id], marked) && marked.customerId == rec.customerId
    ensures var customers := Repointed(t.customers, rec.customerId, newPoints, now);
            && CustomersKeyed(customers) && KeysUnique(customers) && CardsIssued(customers)
            && ReceiptsKeyed(t.receipts[rec.id := marked], customers)
            && LedgerKeyed(t.ledger + RefundRows(rec, points, actorId, now), t.receipts[rec.id := marked], customers)
  {
    var rows := RefundRows(rec, points, actorId, now);
    var receipts := t.receipts[rec.id := marked];
    RefundRowsTotals(rec, points, actorId, now, OfReceipt(rec.id));
    ReceiptChangeKeepsLedgerKeyed(t.ledger, t.receipts, marked, t.customers);
    forall i | 0 <= i < |rows| ensures RowKeyed(rows[i], receipts, t.customers) {
    }
    AppendedRowsKeyed(t.ledger, rows, receipts, t.customers);
    RepointedKeepsKeys(Tables(t.customers, receipts, t.ledger + rows), rec.customerId, newPoints, now);
  }

  lemma RefundKeepsConsistent(t: Tables, rec: Receipt, row: Customer, actorId: string, now: int)
    requires Consistent(t) && MayPublishRefund(t, rec, row)
    ensures var u := PublishRefund(t, rec, row, actorId, now); Consistent(u) && Preserves(t, u)
  {
    var points := RefundedPoints(rec, row.points);
    var marked := t.receipts[rec.id].(status := Refunded, pointsAfterRefund := Some(points), refundedAt := Some(now));
    PointsNonNegative(t, row.id);
    RefundKeepsBalances(t, rec, actorId, now);
    RefundKeepsRowsOnce(t, rec, marked, row.points, actorId, now);
    RefundKeepsKeys(t, rec, marked, row.points, points, actorId, now);
    PostPreserves(t, row.id, points, RefundRows(rec, row.points, actorId, now), marked, now);
    assert PublishRefund(t, rec, row, actorId, now) ==
           Tables(Repointed(t.customers, row.id, points, now), t.receipts[rec.id := marked],
                  t.ledger + RefundRows(rec, row.points, actorId, now));
  }

  lemma AdjustKeepsRowsOnce(receipts: map<string, Receipt>, ledger: seq<LedgerRow>, row: LedgerRow)
    requires RowsOncePerReceipt(receipts, ledger) && row.receiptId.None?
    ensures RowsOncePerReceipt(receipts, ledger + [row])
  {
    forall id ensures RowsOnce(id, receipts, ledger + [row]) {
      assert RowsOnce(id, receipts, ledger);
      TotalConcat(ledger, [row], OfKind(id, Redeemed));
      TotalConcat(ledger, [row], OfKind(id, Earned));
      TotalOfOne([row], OfKind(id, Redeemed));
      TotalOfOne([row], OfKind(id, Earned));
    }
  }

  lemma AdjustKeepsBalances(t: Tables, posted: LedgerRow, now: int)
    requires BalancesAgree(t.customers, t.ledger) && NeverBelowZero(t.ledger)
    requires posted.customerId in t.customers
    requires t.customers[posted.customerId].points >= 0 && t.customers[posted.customerId].points + posted.delta >= 0
    ensures BalancesAgree(Repointed(t.customers, posted.customerId,
                                    t.customers[posted.customerId].points + posted.delta, now),
                          t.ledger + [posted])
    ensures NeverBelowZero(t.ledger + [posted])
  {
    var points := t.customers[posted.customerId].points;
    TotalOfOne([posted], OfCustomer(posted.customerId));
    assert [posted] + [] == [posted];
    OptionalRowsStayAboveZero(points, [posted], [], posted.customerId);
    PostKeepsBalances(t.customers, t.ledger, posted.customerId, [posted], now);
  }

  lemma AdjustKeepsKeys(t: Tables, posted: LedgerRow, points: int, now: int)
    requires CustomersKeyed(t.customers) && KeysUnique(t.customers) && CardsIssued(t.customers)
    requires ReceiptsKeyed(t.receipts, t.customers) && LedgerKeyed(t.ledger, t.receipts, t.customers)
    requires posted.customerId in t.customers && posted.receiptId.None?
    ensures var customers := Repointed(t.customers, posted.customerId, points, now);
            && CustomersKeyed(customers) && KeysUnique(customers) && CardsIssued(customers)
            && ReceiptsKeyed(t.receipts, customers)
            && LedgerKeyed(t.ledger + [posted], t.receipts, customers)
  {
    assert RowKeyed(posted, t.receipts, t.customers);
    AppendedRowsKeyed(t.ledger, [posted], t.receipts, t.customers);
    RepointedKeepsKeys(t.(ledger := t.ledger + [posted]), posted.customerId, points, now);
  }

  /** The tables after one adjustment row. */
  function WithAdjustment(t: Tables, posted: LedgerRow, now: int): Tables
    requires posted.customerId in t.customers
  {
    Tables(Repointed(t.customers, posted.customerId, t.customers[posted.customerId].points + posted.delta, now),
           t.receipts, t.ledger + [posted])
  }

  lemma AdjustPreserves(t: Tables, posted: LedgerRow, now: int)
    requires posted.customerId in t.customers
    ensures Preserves(t, WithAdjustment(t, posted, now))
  {
  }

  lemma AdjustmentKeepsConsistent(t: Tables, posted: LedgerRow, now: int)
    requires Consistent(t) && posted.customerId in t.customers && posted.receiptId.None?
    requires t.customers[posted.customerId].points + posted.delta >= 0
    ensures Consistent(WithAdjustment(t, posted, now))
  {
    PointsNonNegative(t, posted.customerId);
    AdjustKeepsBalances(t, posted, now);
    AdjustKeepsRowsOnce(t.receipts, t.ledger, posted);
    AdjustKeepsKeys(t, posted, t.customers[posted.customerId].points + posted.delta, now);
  }

  lemma AdjustKeepsConsistent(t: Tables, row: Customer, delta: int, reason: string, actorId: string, now: int)
    requires Consistent(t) && row.id in t.customers && t.customers[row.id] == row && row.points + delta >= 0
    ensures var u := PublishAdjust(t, row, delta, reason, actorId, now); Consistent(u) && Preserves(t, u)
  {
    var posted := LedgerRow(row.id, None, delta, Adjusted(reason), actorId, now);
    AdjustmentKeepsConsistent(t, posted, now);
    AdjustPreserves(t, posted, now);
    assert PublishAdjust(t, row, delta, reason, actorId, now) == WithAdjustment(t, posted, now);
  }

  lemma CustomerChangeKeepsKeys(t: Tables, row: Customer)
    requires CustomersKeyed(t.customers) && KeysUnique(t.customers) && CardsIssued(t.customers)
    requires ReceiptsKeyed(t.receipts, t.customers) && LedgerKeyed(t.ledger, t.receipts, t.customers)
    requires row.id in t.customers ==> SameCard(t.customers[row.id], row)
    requires row.id !in t.customers ==> Insertable(t, row) && Issuable(row)
    ensures var customers := t.customers[row.id := row];
            && CustomersKeyed(customers) && KeysUnique(customers) && CardsIssued(customers)
            && ReceiptsKeyed(t.receipts, customers)
            && LedgerKeyed(t.ledger, t.receipts, customers)
  {
    var customers := t.customers[row.id := row];
    forall i | 0 <= i < |t.ledger| ensures RowKeyed(t.ledger[i], t.receipts, customers) {
      assert RowKeyed(t.ledger[i], t.receipts, t.customers);
    }
    forall a, b ensures NoClash(customers, a, b) {
      assert NoClash(t.customers, a, b);
    }
    forall id ensures CardIssued(customers, id) {
      assert CardIssued(t.customers, id);
    }
  }

  lemma CustomerChangeKeepsBalances(t: Tables, row: Customer)
    requires BalancesAgree(t.customers, t.ledger) && LedgerKeyed(t.ledger, t.receipts, t.customers)
    requires row.points == if row.id in t.customers then t.customers[row.id].points else 0
    ensures BalancesAgree(t.customers[row.id := row], t.ledger)
  {
    var customers := t.customers[row.id := row];
    if row.id !in t.customers {
      forall i | 0 <= i < |t.ledger| ensures !Matches(t.ledger[i], OfCustomer(row.id)) {
        assert RowKeyed(t.ledger[i], t.receipts, t.customers);
      }
      NothingTotalsZero(t.ledger, OfCustomer(row.id));
    }
    forall id ensures BalanceAgrees(customers, t.ledger, id) {
      assert BalanceAgrees(t.customers, t.ledger, id);
    }
  }

  lemma CustomerChangePreserves(t: Tables, row: Customer)
    requires row.id in t.customers ==> SameCard(t.customers[row.id], row)
    ensures Preserves(t, t.(customers := t.customers[row.id := row]))
  {
  }

  /** What the single statements on customers may do: add a row, or change one in place. */
  lemma CustomerChangeKeepsConsistent(t: Tables, row: Customer)
    requires Consistent(t)
    requires row.id in t.customers ==> SameCard(t.customers[row.id], row)
    requires row.id !in t.customers ==> Insertable(t, row) && Issuable(row)
    requires row.points == if row.id in t.customers then t.customers[row.id].points else 0
    ensures var u := t.(customers := t.customers[row.id := row]); Consistent(u) && Preserves(t, u)
  {
    CustomerChangeKeepsKeys(t, row);
    CustomerChangeKeepsBalances(t, row);
    CustomerChangePreserves(t, row);
  }

  lemma CustomerStatementsKeepConsistent(t: Tables, op: Op)
    requires Consistent(t) && (op.CreateOp? || op.BlockOp? || op.DeleteOp?) && Admissible(op)
    ensures Consistent(Perform(t, op).0) && Preserves(t, Perform(t, op).0)
  {
    match op
    case CreateOp(row) =>
      if Insertable(t, row) {
        CustomerChangeKeepsConsistent(t, row.(points := 0, blocked := false, deletedAt := None));
      }
    case BlockOp(id, blocked, now) =>
      if id in t.customers {
        CustomerChangeKeepsConsistent(t, t.customers[id].(blocked := blocked, updatedAt := now));
      }
    case DeleteOp(id, deleted, now) =>
      if id in t.customers {
        CustomerChangeKeepsConsistent(t,
            t.customers[id].(deletedAt := if deleted then Some(now) else None, updatedAt := now));
      }
  }

  lemma PreservesItself(t: Tables)
    ensures Preserves(t, t)
  {
  }

  /** Every transaction run alone keeps the invariant and preserves what was there. */
  lemma PerformKeepsConsistent(t: Tables, op: Op)
    requires Consistent(t) && Admissible(op)
    ensures Consistent(Perform(t, op).0) && Preserves(t, Perform(t, op).0)
  {
    PreservesItself(t);
    match op
    case CommitOp(card, req, st, now) =>
      if Perform(t, op).0 != t {
        assert t.customers[card.id].id == card.id;
        PointsNonNegative(t, card.id);
        CommitPreserves(t, t.customers[card.id], req, st, now);
        CommitKeepsConsistent(t, t.customers[card.id], req, st, now);
      }
    case RefundOp(id, actorId, now) =>
      if Perform(t, op).0 != t {
        RefundKeepsConsistent(t, t.receipts[id], t.customers[t.receipts[id].customerId], actorId, now);
      }
    case AdjustOp(card, delta, reason, actorId, now) =>
      if Perform(t, op).0 != t {
        AdjustKeepsConsistent(t, t.customers[card.id], delta, reason, actorId, now);
      }
    case _ => CustomerStatementsKeepConsistent(t, op);
  }

  /** Over any serial run. */
  lemma {:induction false} RunKeepsConsistent(t: Tables, ops: seq<Op>)
    requires Consistent(t) && AllAdmissible(ops)
    ensures Consistent(RunSerial(t, ops)) && Preserves(t, RunSerial(t, ops))
  {
    if ops != [] {
      var front := ops[..|ops| - 1];
      RunKeepsConsistent(t, front);
      PerformKeepsConsistent(RunSerial(t, front), ops[|ops| - 1]);
      PreservesTransitive(t, RunSerial(t, front), RunSerial(t, ops));
    }
  }
}
