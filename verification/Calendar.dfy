/**
 The store calendar day and the cashier's shift list (receipts.go). Times are nanoseconds since the
 Unix epoch; the day is the fixed offset UTC+3.
 */
module Calendar {
  import opened Tables

  const HOUR := 3_600_000_000_000
  const DAY := 24 * HOUR
  const MOSCOW := 3 * HOUR

  /** Local midnight before now, and the one after it. */
  function DayBounds(now: int): (int, int) {
    var start := (now + MOSCOW) / DAY * DAY - MOSCOW;
    (start, start + DAY)
  }

  lemma QuotientOf(q: int, r: int)
    requires 0 <= r < DAY
    ensures (q * DAY + r) / DAY == q && (q * DAY + r) % DAY == r
  {
    var n := q * DAY + r;
    var p := n / DAY;
    assert n == p * DAY + n % DAY;
    assert (p - q) * DAY == r - n % DAY;
  }

  /** The day that starts q whole days after the first one. */
  lemma DayAt(now: int, q: int, r: int)
    requires now + MOSCOW == q * DAY + r && 0 <= r < DAY
    ensures DayBounds(now) == (q * DAY - MOSCOW, q * DAY - MOSCOW + DAY)
  {
    QuotientOf(q, r);
  }

  /** The days tile the time line: an instant lies in one day only, and each day starts where another ends. */
  lemma DaysTile(now: int, other: int)
    ensures var (start, end) := DayBounds(now);
            && start <= now < end
            && (start + 3 * 3600 * 1_000_000_000) % (24 * 3600 * 1_000_000_000) == 0
            && (start <= other < end <==> DayBounds(other) == DayBounds(now))
            && DayBounds(end) == (end, end + DAY)
  {
    var q, r := (now + MOSCOW) / DAY, (now + MOSCOW) % DAY;
    var p, t := (other + MOSCOW) / DAY, (other + MOSCOW) % DAY;
    DayAt(now, q, r);
    DayAt(other, p, t);
    DayAt(DayBounds(now).1, q + 1, 0);
    QuotientOf(q, 0);
    SameDayExactly(q, r, p, t);
  }

  lemma SameDayExactly(q: int, r: int, p: int, t: int)
    requires 0 <= r < DAY && 0 <= t < DAY
    ensures q * DAY <= p * DAY + t < q * DAY + DAY <==> p * DAY == q * DAY
  {
    if p < q {
      assert p * DAY + DAY <= q * DAY;
    } else if p > q {
      assert q * DAY + DAY <= p * DAY;
    }
  }

  // ---- the shift list ---------------------------------------------------------------------------

  datatype ShiftReceipt = ShiftReceipt(
    id: string,
    createdAt: int,
    barcode: string,
    name: string,
    amountRub: int,
    redeemPoints: int,
    earnPoints: int,
    status: Status,
    pointsAfter: int
  )

  /** The row of the join; refunded receipts show the balance after the refund. */
  function Shown(t: Tables, id: string): ShiftReceipt
    requires id in t.receipts && t.receipts[id].customerId in t.customers
  {
    var r := t.receipts[id];
    var c := t.customers[r.customerId];
    ShiftReceipt(id, r.createdAt, c.barcode, c.name, r.amountRub, r.redeemPoints, r.earnPoints, r.status,
                 if r.status == Refunded && r.pointsAfterRefund.Some? then r.pointsAfterRefund.value else r.pointsAfter)
  }

  predicate Selects(t: Tables, id: string, storeId: string, from: int, until: int) {
    && id in t.receipts && t.receipts[id].customerId in t.customers
    && t.receipts[id].storeId == storeId && from <= t.receipts[id].createdAt < until
  }

  /** The rows the query selects; the inner join drops a receipt whose customer is missing. */
  function Selected(t: Tables, storeId: string, from: int, until: int): set<ShiftReceipt> {
    set id | id in t.receipts && Selects(t, id, storeId, from, until) :: Shown(t, id)
  }

  predicate TextLess(a: string, b: string) {
    if b == "" then false
    else if a == "" then true
    else a[0] < b[0] || (a[0] == b[0] && TextLess(a[1..], b[1..]))
  }

  lemma {:induction false} TextOrder(a: string, b: string)
    ensures !(TextLess(a, b) && TextLess(b, a))
    ensures a == b || TextLess(a, b) || TextLess(b, a)
    ensures a == b ==> !TextLess(a, b)
  {
    if a != "" && b != "" {
      TextOrder(a[1..], b[1..]);
      assert a == [a[0]] + a[1..] && b == [b[0]] + b[1..];
    }
  }

  lemma {:induction false} TextLessTransitive(a: string, b: string, c: string)
    requires TextLess(a, b) && TextLess(b, c)
    ensures TextLess(a, c)
  {
    if a != "" && a[0] == b[0] == c[0] {
      TextLessTransitive(a[1..], b[1..], c[1..]);
    }
  }

  /** ORDER BY created_at DESC, id DESC. */
  predicate Newer(a: ShiftReceipt, b: ShiftReceipt) {
    a.createdAt > b.createdAt || (a.createdAt == b.createdAt && TextLess(b.id, a.id))
  }

  ghost predicate NewestFirst(rows: seq<ShiftReceipt>) {
    forall i, j :: 0 <= i < j < |rows| ==> Newer(rows[i], rows[j])
  }

  /** What ListStoreReceipts answers: the selected rows, newest first. */
  ghost predicate IsListing(rows: seq<ShiftReceipt>, t: Tables, storeId: string, from: int, until: int) {
    NewestFirst(rows) && forall r :: r in rows <==> r in Selected(t, storeId, from, until)
  }

  ghost predicate IdsDistinct(rows: set<ShiftReceipt>) {
    forall a, b :: a in rows && b in rows && a != b ==> a.id != b.id
  }

  ghost predicate NewestOf(a: ShiftReceipt, rows: set<ShiftReceipt>) {
    a in rows && forall b :: b in rows && b != a ==> Newer(a, b)
  }

  lemma {:induction false} NewestExists(todo: set<ShiftReceipt>)
    requires todo != {} && IdsDistinct(todo)
    ensures exists a :: NewestOf(a, todo)
    decreases |todo|
  {
    var x :| x in todo;
    if todo == {x} {
      assert NewestOf(x, todo);
    } else {
      NewestExists(todo - {x});
      var y :| NewestOf(y, todo - {x});
      TextOrder(x.id, y.id);
      if Newer(x, y) {
        forall b | b in todo && b != x ensures Newer(x, b) {
          if b != y {
            NewerTransitive(x, y, b);
          }
        }
        assert NewestOf(x, todo);
      } else {
        assert NewestOf(y, todo);
      }
    }
  }

  lemma NewerTransitive(a: ShiftReceipt, b: ShiftReceipt, c: ShiftReceipt)
    requires Newer(a, b) && Newer(b, c)
    ensures Newer(a, c)
  {
    if a.createdAt == b.createdAt == c.createdAt {
      TextLessTransitive(c.id, b.id, a.id);
    }
  }

  /** The rows put out so far are those not left to do, newest first and newer than what is left. */
  ghost predicate Ordered(out: seq<ShiftReceipt>, todo: set<ShiftReceipt>, rows: set<ShiftReceipt>) {
    && todo <= rows && NewestFirst(out)
    && (forall r :: r in out <==> r in rows - todo)
    && (forall i, r :: 0 <= i < |out| && r in todo ==> Newer(out[i], r))
  }

  lemma OneMoreRow(out: seq<ShiftReceipt>, todo: set<ShiftReceipt>, rows: set<ShiftReceipt>, r: ShiftReceipt)
    requires Ordered(out, todo, rows) && NewestOf(r, todo)
    ensures Ordered(out + [r], todo - {r}, rows)
  {
    assert forall x :: x in out + [r] <==> x in out || x == r;
  }

  method OrderRows(rows: set<ShiftReceipt>) returns (out: seq<ShiftReceipt>)
    requires IdsDistinct(rows)
    ensures NewestFirst(out) && forall r :: r in out <==> r in rows
  {
    var todo := rows;
    out := [];
    while todo != {}
      invariant Ordered(out, todo, rows)
      decreases |todo|
    {
      NewestExists(todo);
      ghost var newest :| NewestOf(newest, todo);
      var r :| r in todo && forall b :: b in todo && b != r ==> Newer(r, b);
      OneMoreRow(out, todo, rows, r);
      out := out + [r];
      todo := todo - {r};
    }
  }

  method ListStoreReceipts(t: Tables, storeId: string, from: int, until: int) returns (out: seq<ShiftReceipt>)
    ensures IsListing(out, t, storeId, from, until)
    ensures forall i, j :: 0 <= i < j < |out| ==>
              out[i].createdAt > out[j].createdAt
              || (out[i].createdAt == out[j].createdAt && TextLess(out[j].id, out[i].id))
  {
    out := OrderRows(Selected(t, storeId, from, until));
  }

  // ---- listings are determined, and tile like the days -------------------------------------------

  lemma NewerAsymmetric(a: ShiftReceipt, b: ShiftReceipt)
    ensures !(Newer(a, b) && Newer(b, a))
  {
    TextOrder(a.id, b.id);
  }

  /** Two newest-first lists of the same rows are the same list. */
  lemma {:induction false} OrderDeterminesList(a: seq<ShiftReceipt>, b: seq<ShiftReceipt>)
    requires NewestFirst(a) && NewestFirst(b) && forall r :: r in a <==> r in b
    ensures a == b
  {
    assert |b| > 0 ==> |a| > 0 by {
      if |b| > 0 {
        assert b[0] in b;
      }
    }
    if a != [] {
      assert a[0] in a && a[0] in b && b[0] in b && b[0] in a;
      var i :| 0 <= i < |a| && a[i] == b[0];
      var j :| 0 <= j < |b| && b[j] == a[0];
      NewerAsymmetric(a[0], b[0]);
      assert a[0] == b[0];
      forall r ensures r in a[1..] <==> r in b[1..] {
        NewerAsymmetric(r, r);
        assert r in a <==> r == a[0] || r in a[1..];
        assert r in b <==> r == b[0] || r in b[1..];
      }
      OrderDeterminesList(a[1..], b[1..]);
      assert a == [a[0]] + a[1..] && b == [b[0]] + b[1..];
    }
  }

  /** The later interval's list followed by the earlier one's is the list of both. */
  lemma ListingsJoin(late: seq<ShiftReceipt>, early: seq<ShiftReceipt>, t: Tables, storeId: string, from: int,
                     mid: int, until: int)
    requires from <= mid <= until
    requires IsListing(early, t, storeId, from, mid) && IsListing(late, t, storeId, mid, until)
    ensures IsListing(late + early, t, storeId, from, until)
  {
    var rows := late + early;
    assert Selected(t, storeId, from, until) == Selected(t, storeId, mid, until) + Selected(t, storeId, from, mid);
    forall i, j | 0 <= i < j < |rows| ensures Newer(rows[i], rows[j]) {
      if i < |late| <= j {
        assert rows[i] in late && rows[j] in early;
      }
    }
  }

  function Concat(lists: seq<seq<ShiftReceipt>>): seq<ShiftReceipt> {
    if lists == [] then [] else Concat(lists[..|lists| - 1]) + lists[|lists| - 1]
  }

  /** The day lists, newest day first: list i covers the i-th day before the last one. */
  ghost predicate AreDayLists(lists: seq<seq<ShiftReceipt>>, t: Tables, storeId: string, lastDay: int) {
    forall i :: 0 <= i < |lists| ==>
      var (start, end) := DayBounds(lastDay - i * DAY);
      IsListing(lists[i], t, storeId, start, end)
  }

  lemma DaysBefore(lastDay: int, k: nat)
    ensures DayBounds(lastDay - k * DAY) == (DayBounds(lastDay).0 - k * DAY, DayBounds(lastDay).1 - k * DAY)
  {
    var q, r := (lastDay + MOSCOW) / DAY, (lastDay + MOSCOW) % DAY;
    DayAt(lastDay, q, r);
    assert (q - k) * DAY == q * DAY - k * DAY;
    DayAt(lastDay - k * DAY, q - k, r);
  }

  lemma {:induction false} DayListsJoin(lists: seq<seq<ShiftReceipt>>, t: Tables, storeId: string, lastDay: int)
    requires AreDayLists(lists, t, storeId, lastDay)
    ensures IsListing(Concat(lists), t, storeId, DayBounds(lastDay).1 - |lists| * DAY, DayBounds(lastDay).1)
  {
    if lists != [] {
      var k := |lists| - 1;
      DayListsJoin(lists[..k], t, storeId, lastDay);
      DaysBefore(lastDay, k);
      var end := DayBounds(lastDay).1;
      ListingsJoin(Concat(lists[..k]), lists[k], t, storeId, end - (k + 1) * DAY, end - k * DAY, end);
    }
  }

  /**
   Consecutive day lists, newest day first, put one after the other are the one list of the whole span.
   */
  lemma {:induction false} DayListsTile(lists: seq<seq<ShiftReceipt>>, whole: seq<ShiftReceipt>, t: Tables,
                                        storeId: string, lastDay: int)
    requires AreDayLists(lists, t, storeId, lastDay)
    requires IsListing(whole, t, storeId, DayBounds(lastDay).1 - |lists| * DAY, DayBounds(lastDay).1)
    ensures Concat(lists) == whole
  {
    DayListsJoin(lists, t, storeId, lastDay);
    OrderDeterminesList(Concat(lists), whole);
  }
}
