/**
 What each call does and answers, in plain terms of the tables it starts from: which input gets which
 answer, the balance, the receipt and the ledger rows it leaves, and what stays as it was.
 */
module CallLaws {
  import opened Calendar
  import opened Decimal
  import opened LedgerLaws
  import opened Phone
  import opened Rules
  import opened RulesLaws
  import opened SerialLaws
  import opened Tables
  import opened Wrappers

  // ---- the card ----------------------------------------------------------------------------------

  /** A scanned code names the bearer of its barcode, otherwise the customer with its id, otherwise nobody. */
  lemma ResolveExactly(t: Tables, card: CardCode, id: string)
    requires Consistent(t)
    ensures card.blank ==> Resolve(t, card) == Failure(Refused(InvalidRequest))
    ensures !card.blank && id in t.customers && t.customers[id].barcode == card.barcode ==>
              Resolve(t, card) == Success(t.customers[id])
    ensures !card.blank && (forall c :: c in t.customers ==> t.customers[c].barcode != card.barcode) ==>
              Resolve(t, card) ==
                if card.customerId.Some? && card.customerId.value in t.customers then
                  Success(t.customers[card.customerId.value])
                else Failure(Refused(CustomerNotFound))
  {
    if !card.blank && id in t.customers && t.customers[id].barcode == card.barcode {
      BarcodeNamesOne(t, id);
    }
    if !card.blank && (forall c :: c in t.customers ==> t.customers[c].barcode != card.barcode) {
      assert forall c :: !Bears(t, c, card.barcode);
    }
  }

  /** The code names this customer, and the card is neither deleted nor blocked. */
  ghost predicate Usable(t: Tables, card: CardCode, c: Customer) {
    Resolve(t, card) == Success(c) && c.deletedAt.None? && !c.blocked
  }

  // ---- commit ------------------------------------------------------------------------------------

  /** A request that passes the checks on its form, under an id not used before. */
  predicate FreshRequest(t: Tables, req: CommitInput) {
    req.idParses && req.receiptId != "" && req.amountRub >= 0 && req.redeemPoints >= 0 && req.receiptId !in t.receipts
  }

  /** What is refused before the transaction, and with which code. */
  lemma CommitRefusedBefore(t: Tables, req: CommitInput, st: Settings, now: int)
    requires Consistent(t)
    ensures var (u, r) := Commit(t, req, st, now);
            var found := Resolve(t, req.card);
            if !req.idParses || req.receiptId == "" || req.amountRub < 0 || req.redeemPoints < 0 then
              (u, r) == (t, Failure(Refused(InvalidRequest)))
            else if found.Failure? then (u, r) == (t, Failure(found.error))
            else if found.value.deletedAt.Some? then (u, r) == (t, Failure(Refused(CustomerDeleted)))
            else if found.value.blocked then (u, r) == (t, Failure(Refused(CustomerBlocked)))
            else r.Success? || (u == t && r.error !in {NoRows, Violation, Broken})
  {
    if Resolve(t, req.card).Success? {
      ResolvedIsStored(t, req.card);
    }
  }

  /** A purchase on a usable card goes through exactly when it redeems nothing, or from the minimum to the maximum. */
  lemma CommitSucceedsExactly(t: Tables, req: CommitInput, c: Customer, st: Settings, now: int)
    requires Consistent(t) && FreshRequest(t, req) && Usable(t, req.card, c)
    ensures Commit(t, req, st, now).1.Success? <==>
              req.redeemPoints == 0 || st.redeemMin <= req.redeemPoints <= MaxRedeemable(c.points, req.amountRub, st)
    ensures Commit(t, req, st, now).1.Success? <==>
              || req.redeemPoints == 0
              || (st.redeemMin <= req.redeemPoints <= c.points
                  && req.redeemPoints * Rate(st) * 100 <= req.amountRub * Share(st))
  {
    ResolvedIsStored(t, req.card);
    CheckIs(c.points, req.amountRub, req.redeemPoints, st);
    if req.redeemPoints > 0 {
      AcceptedExactlyUpToMax(c.points, req.amountRub, req.redeemPoints, st);
    }
  }

  /** Which code a redemption is refused with: the minimum is tested first, then the points, then the share. */
  lemma CommitRefusalCodes(t: Tables, req: CommitInput, c: Customer, st: Settings, now: int)
    requires Consistent(t) && FreshRequest(t, req) && Usable(t, req.card, c) && req.redeemPoints > 0
    ensures var (u, r) := Commit(t, req, st, now);
            if req.redeemPoints < st.redeemMin then (u, r) == (t, Failure(Refused(BelowMinRedeem)))
            else if req.redeemPoints > c.points then (u, r) == (t, Failure(Refused(InsufficientPoints)))
            else if req.redeemPoints * Rate(st) * 100 > req.amountRub * Share(st) then
              (u, r) == (t, Failure(Refused(ExceedsShare)))
            else r.Success?
  {
    ResolvedIsStored(t, req.card);
    CheckIs(c.points, req.amountRub, req.redeemPoints, st);
  }

  /** One ledger row, or none when there is nothing to post. */
  function RowUnlessZero(customerId: string, receiptId: string, delta: int, reason: Reason, actorId: string, at: int)
      : seq<LedgerRow> {
    if delta == 0 then [] else [LedgerRow(customerId, Some(receiptId), delta, reason, actorId, at)]
  }

  /** Points earned by a purchase: a floor, of what is paid in money, from the minimum receipt on. */
  function EarnedOn(amountRub: int, redeemPoints: int, st: Settings): int {
    if amountRub < st.earnMinReceipt then 0 else (amountRub - redeemPoints * Rate(st)) * Percent(st) / 100
  }

  /** What a successful commit answers and leaves. */
  lemma CommitEffects(t: Tables, req: CommitInput, c: Customer, st: Settings, now: int)
    requires Consistent(t) && FreshRequest(t, req) && Usable(t, req.card, c)
    requires Commit(t, req, st, now).1.Success?
    ensures var (u, r) := Commit(t, req, st, now);
            var earn := EarnedOn(req.amountRub, req.redeemPoints, st);
            var points := c.points - req.redeemPoints + earn;
            && r.value == CommitResult(req.receiptId, c.id, c.barcode, points, earn, req.redeemPoints, false)
            && u.customers == t.customers[c.id := c.(points := points, updatedAt := now)]
            && u.receipts == t.receipts[req.receiptId :=
                 Receipt(req.receiptId, req.storeId, req.staffId, c.id, req.amountRub, req.redeemPoints, earn,
                         Committed, points, None, now, None)]
            && u.ledger == t.ledger
                 + RowUnlessZero(c.id, req.receiptId, -req.redeemPoints, Redeemed, req.staffId, now)
                 + RowUnlessZero(c.id, req.receiptId, earn, Earned, req.staffId, now)
  {
    ResolvedIsStored(t, req.card);
    CommitSucceedsExactly(t, req, c, st, now);
    PayableIsNonNegative(req.amountRub, req.redeemPoints, st);
    EarnIs(req.amountRub, req.redeemPoints, st);
    var rec := CommitReceipt(c, req, st, now);
    assert CommitRows(rec, now) == RowUnlessZero(c.id, req.receiptId, -req.redeemPoints, Redeemed, req.staffId, now)
                                   + RowUnlessZero(c.id, req.receiptId, rec.earnPoints, Earned, req.staffId, now);
  }

  /** A purchase that redeems nothing is never refused on a usable card, and adds what it earns. */
  lemma PlainPurchaseAddsEarned(t: Tables, req: CommitInput, c: Customer, st: Settings, now: int)
    requires Consistent(t) && FreshRequest(t, req) && Usable(t, req.card, c) && req.redeemPoints == 0
    ensures var (u, r) := Commit(t, req, st, now);
            && r.Success? && c.id in u.customers
            && r.value.points == u.customers[c.id].points == c.points + r.value.earnPoints
            && r.value.earnPoints ==
                 if req.amountRub < st.earnMinReceipt then 0 else req.amountRub * Percent(st) / 100
  {
    CommitSucceedsExactly(t, req, c, st, now);
    CommitEffects(t, req, c, st, now);
  }

  // ---- quote -------------------------------------------------------------------------------------

  lemma QuoteShape(points: int, amountRub: int, requested: int, st: Settings)
    ensures var q := QuoteRedeem(points, amountRub, requested, st);
            && (q.allowed <==> CheckRedeem(points, amountRub, requested, st).None?)
            && q.maxPoints == MaxRedeemable(points, amountRub, st)
  {
    var s := st.WithDefaults();
    assert s.WithDefaults() == s;
  }

  lemma QuotNonNegative(a: int, b: int)
    requires a >= 0 && b > 0
    ensures Quot(a, b) >= 0
  {
  }

  lemma MaximumNonNegative(points: int, amountRub: int, st: Settings)
    ensures MaxRedeemable(points, amountRub, st) >= 0
    ensures MaxRedeemable(points, amountRub, st) > 0 ==> st.redeemMin <= MaxRedeemable(points, amountRub, st)
  {
    if amountRub > 0 {
      var s := st.WithDefaults();
      var whole := amountRub * s.redeemMaxShare;
      NonNegProduct(amountRub, s.redeemMaxShare);
      QuotNonNegative(whole, 100);
      QuotNonNegative(Quot(whole, 100), s.redeemRate);
    }
  }

  /** The quote's own maximum decides what is allowed, whether this quote was allowed or not. */
  lemma QuoteMaximumIsAllowed(points: int, amountRub: int, requested: int, k: int, st: Settings)
    requires k > 0
    ensures var q := QuoteRedeem(points, amountRub, requested, st);
            && q.maxPoints >= 0
            && (QuoteRedeem(points, amountRub, k, st).allowed <==> st.redeemMin <= k <= q.maxPoints)
            && (q.maxPoints > 0 ==> QuoteRedeem(points, amountRub, q.maxPoints, st).allowed)
  {
    var max := MaxRedeemable(points, amountRub, st);
    QuoteShape(points, amountRub, requested, st);
    QuoteShape(points, amountRub, k, st);
    QuoteShape(points, amountRub, max, st);
    MaximumNonNegative(points, amountRub, st);
    AcceptedExactlyUpToMax(points, amountRub, k, st);
    if max > 0 {
      AcceptedExactlyUpToMax(points, amountRub, max, st);
    }
  }

  /** Every field of a quote for a non-negative receipt and request. */
  lemma QuoteFields(points: int, amountRub: int, requested: int, st: Settings)
    requires amountRub >= 0 && requested >= 0
    ensures var q := QuoteRedeem(points, amountRub, requested, st);
            && q.requestedPoints == requested && q.currentPoints == points
            && q.code == (if requested == 0 then None
                          else if requested < st.redeemMin then Some(BelowMinRedeem)
                          else if requested > points then Some(InsufficientPoints)
                          else if requested * Rate(st) * 100 > amountRub * Share(st) then Some(ExceedsShare)
                          else None)
            && (q.allowed <==> q.code.None?)
            && (q.allowed ==>
                  && q.redeemPoints == requested && q.redeemRub == requested * Rate(st)
                  && q.payableRub == amountRub - requested * Rate(st)
                  && q.earnPoints == EarnedOn(amountRub, requested, st))
            && (!q.allowed ==> q.redeemPoints == q.redeemRub == q.earnPoints == q.payableRub == 0)
  {
    var s := st.WithDefaults();
    assert s.WithDefaults() == s && Rate(s) == Rate(st) && Share(s) == Share(st) && Percent(s) == Percent(st);
    CheckIs(points, amountRub, requested, s);
    EarnIs(amountRub, requested, s);
    if CheckRedeem(points, amountRub, requested, s).None? {
      if requested > 0 {
        NonNegProduct(amountRub, 100 - Share(st));
        assert amountRub * 100 - amountRub * Share(st) == amountRub * (100 - Share(st));
      }
      assert requested * Rate(st) <= amountRub;
    }
  }

  /** What a quote call refuses outright, and the balance and settings it otherwise quotes from. */
  lemma QuoteCallExactly(t: Tables, card: CardCode, amountRub: int, requested: int, st: Settings)
    ensures var r := QuoteCall(t, card, amountRub, requested, st);
            var found := Resolve(t, card);
            if found.Failure? then r == Failure(found.error)
            else if found.value.deletedAt.Some? then r == Failure(Refused(CustomerDeleted))
            else if found.value.blocked then r == Failure(Refused(CustomerBlocked))
            else if amountRub < 0 || requested < 0 then r == Failure(Refused(InvalidRequest))
            else r.Success? && r.value.currentPoints == found.value.points && r.value.requestedPoints == requested
  {
  }

  // ---- refund ------------------------------------------------------------------------------------

  function Lesser(a: int, b: int): int {
    if a < b then a else b
  }

  /**
   A refund of a committed receipt takes back what was earned, as far as the balance goes, and returns
   what was redeemed: the answer, the stored balance and the receipt's record of it are one number.
   */
  lemma RefundEffects(t: Tables, id: string, actor: string, now: int)
    requires Consistent(t) && Stage(t, id) == 1
    ensures t.receipts[id].customerId in t.customers
    ensures var (u, r) := Refund(t, id, true, actor, now);
            var rec := t.receipts[id];
            var c := t.customers[rec.customerId];
            var taken := Lesser(rec.earnPoints, c.points);
            var points := c.points - taken + rec.redeemPoints;
            && r == Success(RefundResult(id, c.id, points, false))
            && u.customers == t.customers[c.id := c.(points := points, updatedAt := now)]
            && u.receipts == t.receipts[id :=
                 rec.(status := Refunded, pointsAfterRefund := Some(points), refundedAt := Some(now))]
            && u.ledger == t.ledger + RowUnlessZero(c.id, id, -taken, EarnReversed, actor, now)
                           + RowUnlessZero(c.id, id, rec.redeemPoints, RedeemReturned, actor, now)
  {
    var rec := t.receipts[id];
    var c := t.customers[rec.customerId];
    PointsNonNegative(t, c.id);
    assert RefundRows(rec, c.points, actor, now)
        == RowUnlessZero(c.id, id, -Lesser(rec.earnPoints, c.points), EarnReversed, actor, now)
           + RowUnlessZero(c.id, id, rec.redeemPoints, RedeemReturned, actor, now);
  }

  /** The other answers of a refund, none of which changes anything. */
  lemma RefundAnswersOtherwise(t: Tables, id: string, idParses: bool, actor: string, now: int)
    requires !idParses || Stage(t, id) != 1
    ensures Refund(t, id, idParses, actor, now).0 == t
    ensures !idParses || Stage(t, id) == 0 ==> Refund(t, id, idParses, actor, now).1 == Failure(Refused(InvalidRequest))
    ensures idParses && Stage(t, id) == 2 ==>
              var rec := t.receipts[id];
              Refund(t, id, idParses, actor, now).1 ==
                Success(RefundResult(rec.id, rec.customerId, rec.pointsAfterRefund.UnwrapOr(rec.pointsAfter), true))
  {
  }

  // ---- adjust ------------------------------------------------------------------------------------

  /** What an adjust answers and leaves; a blocked card may be adjusted, a deleted one may not. */
  lemma AdjustExactly(t: Tables, card: CardCode, delta: int, reason: string, reasonBlank: bool, actor: string, now: int)
    requires Consistent(t)
    ensures var (u, r) := Adjust(t, card, delta, reason, reasonBlank, actor, now);
            var found := Resolve(t, card);
            if reasonBlank then (u, r) == (t, Failure(Refused(InvalidRequest)))
            else if found.Failure? then (u, r) == (t, Failure(found.error))
            else if found.value.deletedAt.Some? then (u, r) == (t, Failure(Refused(CustomerDeleted)))
            else if found.value.points + delta < 0 then (u, r) == (t, Failure(Refused(InsufficientPoints)))
            else
              var c := found.value;
              && r == Success(c.(points := c.points + delta, updatedAt := now))
              && u.customers == t.customers[c.id := r.value] && u.receipts == t.receipts
              && u.ledger == t.ledger + [LedgerRow(c.id, None, delta, Adjusted(reason), actor, now)]
  {
    if Resolve(t, card).Success? {
      ResolvedIsStored(t, card);
    }
  }

  // ---- enrolment ---------------------------------------------------------------------------------

  /** A known cookie answers its card, or says that it was deleted, whatever else the form holds. */
  lemma KnownCookieIsAnswered(t: Tables, input: EnrollInput, isDigit: char -> bool, id: string, barcode: string,
                              now: int)
    requires input.cookieId != "" && input.cookieId in t.customers
    ensures var c := t.customers[input.cookieId];
            Enroll(t, input, isDigit, id, barcode, now) ==
              (t, if c.deletedAt.Some? then Failure(Refused(CustomerDeleted)) else Success((c, false)))
  {
  }

  /** Otherwise a blank name or a phone without a valid normal form is refused. */
  lemma BadFormIsRefused(t: Tables, input: EnrollInput, isDigit: char -> bool, id: string, barcode: string, now: int)
    requires input.cookieId == "" || input.cookieId !in t.customers
    requires TrimSpace(input.name) == "" || !IsValidPhone(Normalized(input.phone, isDigit))
    ensures Enroll(t, input, isDigit, id, barcode, now) == (t, Failure(Refused(InvalidRequest)))
  {
  }

  /** A phone some card bears finds that card, or says that it was deleted. */
  lemma KnownPhoneIsAnswered(t: Tables, input: EnrollInput, isDigit: char -> bool, known: string, id: string,
                             barcode: string, now: int)
    requires Consistent(t) && (input.cookieId == "" || input.cookieId !in t.customers) && TrimSpace(input.name) != ""
    requires known in t.customers && t.customers[known].phone == Normalized(input.phone, isDigit)
    ensures var c := t.customers[known];
            Enroll(t, input, isDigit, id, barcode, now) ==
              (t, if c.deletedAt.Some? then Failure(Refused(CustomerDeleted)) else Success((c, false)))
  {
    assert CardIssued(t.customers, known);
    PhoneNamesOne(t, known);
  }

  /** A phone no card bears gets a new card, unless the drawn id or barcode is taken. */
  lemma NewPhoneIsEnrolled(t: Tables, input: EnrollInput, isDigit: char -> bool, id: string, barcode: string, now: int)
    requires (input.cookieId == "" || input.cookieId !in t.customers) && TrimSpace(input.name) != ""
    requires var phone := Normalized(input.phone, isDigit);
             IsValidPhone(phone) && forall c :: c in t.customers ==> t.customers[c].phone != phone
    ensures var (u, r) := Enroll(t, input, isDigit, id, barcode, now);
            var row := Customer(id, barcode, TrimSpace(input.name), Normalized(input.phone, isDigit), 0, false,
                                now, now, None);
            if id !in t.customers && (forall c :: c in t.customers ==> t.customers[c].barcode != barcode) then
              r == Success((row, true)) && u == t.(customers := t.customers[id := row])
            else (u, r) == (t, Failure(Violation))
  {
    var phone := Normalized(input.phone, isDigit);
    assert forall c :: !BearsPhone(t, c, phone);
  }

  // ---- blocking and deleting -----------------------------------------------------------------------

  /** The two flags decide, deletion first, what every cashier call on the card answers from then on. */
  lemma FlagsDecide(t: Tables, card: CardCode, c: Customer, req: CommitInput, st: Settings, now: int)
    requires Consistent(t) && Resolve(t, card) == Success(c) && FreshRequest(t, req) && req.card == card
    ensures c.deletedAt.Some? ==> Commit(t, req, st, now).1 == Failure(Refused(CustomerDeleted))
    ensures c.deletedAt.None? && c.blocked ==> Commit(t, req, st, now).1 == Failure(Refused(CustomerBlocked))
    ensures c.deletedAt.None? && !c.blocked && req.redeemPoints == 0 ==> Commit(t, req, st, now).1.Success?
  {
    CommitRefusedBefore(t, req, st, now);
    if c.deletedAt.None? && !c.blocked {
      CommitSucceedsExactly(t, req, c, st, now);
    }
  }

  /** After blocking, a purchase without redemption is refused as blocked; after unblocking it goes through. */
  lemma BlockingDecides(t: Tables, c: Customer, req: CommitInput, st: Settings, blocked: bool, at: int, now: int)
    requires Consistent(t) && FreshRequest(t, req) && req.redeemPoints == 0 && Unambiguous(req.card)
    requires Resolve(t, req.card) == Success(c)
    ensures var (u, ok) := SetBlocked(t, c.id, blocked, at);
            && ok && u == t.(customers := t.customers[c.id := c.(blocked := blocked, updatedAt := at)])
            && (c.deletedAt.Some? ==> Commit(u, req, st, now).1 == Failure(Refused(CustomerDeleted)))
            && (c.deletedAt.None? && blocked ==> Commit(u, req, st, now).1 == Failure(Refused(CustomerBlocked)))
            && (c.deletedAt.None? && !blocked ==> Commit(u, req, st, now).1.Success?)
  {
    ResolvedIsStored(t, req.card);
    CustomerStatementsKeepConsistent(t, BlockOp(c.id, blocked, at));
    var u := SetBlocked(t, c.id, blocked, at).0;
    ResolutionIsStable(t, u, req.card);
    FlagsDecide(u, req.card, u.customers[c.id], req, st, now);
  }

  /** After deleting, it is refused as deleted; after restoring, what the blocked flag says. */
  lemma DeletingDecides(t: Tables, c: Customer, req: CommitInput, st: Settings, deleted: bool, at: int, now: int)
    requires Consistent(t) && FreshRequest(t, req) && req.redeemPoints == 0 && Unambiguous(req.card)
    requires Resolve(t, req.card) == Success(c)
    ensures var (u, ok) := SetDeleted(t, c.id, deleted, at);
            && ok
            && u == t.(customers :=
                 t.customers[c.id := c.(deletedAt := if deleted then Some(at) else None, updatedAt := at)])
            && (deleted ==> Commit(u, req, st, now).1 == Failure(Refused(CustomerDeleted)))
            && (!deleted && c.blocked ==> Commit(u, req, st, now).1 == Failure(Refused(CustomerBlocked)))
            && (!deleted && !c.blocked ==> Commit(u, req, st, now).1.Success?)
  {
    ResolvedIsStored(t, req.card);
    CustomerStatementsKeepConsistent(t, DeleteOp(c.id, deleted, at));
    var u := SetDeleted(t, c.id, deleted, at).0;
    ResolutionIsStable(t, u, req.card);
    FlagsDecide(u, req.card, u.customers[c.id], req, st, now);
  }

  // ---- the shift list ------------------------------------------------------------------------------

  /** The shift list shows a purchase as it was answered. */
  lemma ShiftShowsTheCommit(t: Tables, req: CommitInput, c: Customer, st: Settings, now: int)
    requires Consistent(t) && FreshRequest(t, req) && Usable(t, req.card, c)
    requires Commit(t, req, st, now).1.Success?
    ensures var (u, r) := Commit(t, req, st, now);
            && Selects(u, req.receiptId, req.storeId, now, now + 1)
            && Shown(u, req.receiptId) ==
                 ShiftReceipt(req.receiptId, now, c.barcode, c.name, req.amountRub, req.redeemPoints,
                              r.value.earnPoints, Committed, r.value.points)
  {
    CommitEffects(t, req, c, st, now);
  }

  /** And a refund with the balance the refund left, the purchase's amounts and time unchanged. */
  lemma ShiftShowsTheRefund(t: Tables, id: string, actor: string, now: int)
    requires Consistent(t) && Stage(t, id) == 1
    ensures var (u, r) := Refund(t, id, true, actor, now);
            && r.Success? && t.receipts[id].customerId in t.customers
            && id in u.receipts && u.receipts[id].customerId in u.customers
            && Shown(t, id).pointsAfter == t.receipts[id].pointsAfter
            && Shown(u, id) == Shown(t, id).(status := Refunded, pointsAfter := r.value.points)
  {
    RefundEffects(t, id, actor, now);
  }
}
