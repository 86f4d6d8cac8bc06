/** What the separate rule computations promise together. */
module RulesLaws {
  import opened Decimal
  import opened Rules
  import opened Wrappers

  // ---- integer facts -------------------------------------------------------------------------

  lemma ProductAtMost(k: int, rate: int, m: int)
    requires rate > 0 && m >= 0 && k >= 0
    ensures k * rate <= m <==> k <= m / rate
  {
    var q, r := m / rate, m % rate;
    assert m == q * rate + r;
    if k <= q {
      assert k * rate <= q * rate by { MulMonotone(k, q, rate); }
    } else {
      assert (q + 1) * rate <= k * rate by { MulMonotone(q + 1, k, rate); }
      assert (q + 1) * rate == q * rate + rate;
    }
  }

  lemma MulMonotone(a: int, b: int, c: int)
    requires a <= b && c >= 0
    ensures a * c <= b * c
  {
    assert (b - a) * c >= 0;
    assert (b - a) * c == b * c - a * c;
  }

  lemma NonNegProduct(a: int, b: int)
    requires a >= 0 && b >= 0
    ensures a * b >= 0
  {
  }

  /** Go's division drops the fraction: the remainder has the dividend's sign and is smaller than the divisor. */
  lemma QuotTruncates(a: int, b: int)
    requires b > 0
    ensures a >= 0 ==> 0 <= a - Quot(a, b) * b < b
    ensures a <= 0 ==> -b < a - Quot(a, b) * b <= 0
  {
    var n := if a >= 0 then a else -a;
    assert n == n / b * b + n % b;
  }

  // ---- the settings that apply -----------------------------------------------------------------

  /** Roubles a point is worth: as stored, or one. */
  function Rate(st: Settings): (rate: int)
    ensures rate > 0
  {
    if st.redeemRate > 0 then st.redeemRate else 1
  }

  /** Percent earned: as stored, or none. */
  function Percent(st: Settings): (percent: int)
    ensures percent >= 0
  {
    if st.earnPercent >= 0 then st.earnPercent else 0
  }

  /** Percent of a receipt payable with points: as stored, within 0 and 100. */
  function Share(st: Settings): (share: int)
    ensures 0 <= share <= 100
  {
    if st.redeemMaxShare > 100 then 100 else if st.redeemMaxShare > 0 then st.redeemMaxShare else 0
  }

  /** Which code a request gets, in the order of the tests; the share is tested without rounding. */
  lemma CheckIs(points: int, amountRub: int, requested: int, st: Settings)
    requires amountRub >= 0 && requested >= 0
    ensures CheckRedeem(points, amountRub, requested, st) ==
              if requested == 0 then None
              else if requested < st.redeemMin then Some(BelowMinRedeem)
              else if requested > points then Some(InsufficientPoints)
              else if requested * Rate(st) * 100 > amountRub * Share(st) then Some(ExceedsShare)
              else None
  {
    NonNegProduct(amountRub, Share(st));
    FloorAtMost(requested * Rate(st), amountRub * Share(st));
  }

  lemma FloorAtMost(k: int, n: int)
    requires n >= 0
    ensures k > n / 100 <==> k * 100 > n
  {
  }

  /** Points earned: nothing below the minimum receipt, then a floor of the percent of what points do not pay. */
  lemma EarnIs(amountRub: int, redeemPoints: int, st: Settings)
    ensures ComputeEarn(amountRub, redeemPoints, st) ==
              if amountRub < st.earnMinReceipt then 0
              else Max0(amountRub - redeemPoints * Rate(st)) * Percent(st) / 100
  {
    NonNegProduct(Max0(amountRub - redeemPoints * Rate(st)), Percent(st));
  }

  /** An accepted redemption is worth at most the receipt. */
  lemma PayableIsNonNegative(amountRub: int, requested: int, st: Settings)
    requires amountRub >= 0
    requires requested == 0 || requested * Rate(st) * 100 <= amountRub * Share(st)
    ensures requested * Rate(st) <= amountRub
  {
    MulMonotone(Share(st), 100, amountRub);
  }

  // ---- the check and the maximum agree -------------------------------------------------------

  /** A positive request is accepted exactly when it lies between the minimum and the maximum. */
  lemma AcceptedExactlyUpToMax(points: int, amountRub: int, requested: int, st: Settings)
    requires requested > 0
    ensures CheckRedeem(points, amountRub, requested, st).None?
       <==> st.redeemMin <= requested <= MaxRedeemable(points, amountRub, st)
  {
    var s := st.WithDefaults();
    var share := amountRub * s.redeemMaxShare;
    if amountRub > 0 {
      NonNegProduct(amountRub, s.redeemMaxShare);
      ProductAtMost(requested, s.redeemRate, share / 100);
    } else {
      NonNegProduct(-amountRub, s.redeemMaxShare);
      assert -share == (-amountRub) * s.redeemMaxShare;
      MulMonotone(1, requested, s.redeemRate);
    }
  }

  /** Lookup's can_redeem flag (service.go:183). */
  predicate CanRedeem(points: int, st: Settings) {
    points >= st.redeemMin
  }

  /**
   Some receipt lets the customer redeem exactly when the flag holds, there are points, and the
   clamped share is positive.
   */
  lemma RedeemableForSomeAmount(points: int, st: Settings)
    ensures (exists amountRub :: MaxRedeemable(points, amountRub, st) > 0)
       <==> CanRedeem(points, st) && points > 0 && st.redeemMaxShare > 0
  {
    var s := st.WithDefaults();
    if CanRedeem(points, st) && points > 0 && st.redeemMaxShare > 0 {
      var rub := points * s.redeemRate;
      MulMonotone(1, points, s.redeemRate);
      var amountRub := 100 * rub;
      var share := amountRub * s.redeemMaxShare;
      MulMonotone(1, s.redeemMaxShare, amountRub);
      assert share / 100 >= rub;
      ProductAtMost(points, s.redeemRate, share / 100);
      assert MaxRedeemable(points, amountRub, st) == points;
    }
    forall amountRub | MaxRedeemable(points, amountRub, st) > 0
      ensures CanRedeem(points, st) && points > 0 && st.redeemMaxShare > 0
    {
    }
  }

  lemma EarnNonNegative(amountRub: int, redeemPoints: int, st: Settings)
    ensures ComputeEarn(amountRub, redeemPoints, st) >= 0
  {
    var s := st.WithDefaults();
    var base := amountRub - redeemPoints * s.redeemRate;
    NonNegProduct(if base < 0 then 0 else base, s.earnPercent);
  }

  // ---- quotes --------------------------------------------------------------------------------

  /**
   Of an allowed quote for a non-negative receipt and request: payable plus redeemed roubles is the
   receipt, the redeemed roubles stay within the share, and neither clamp at zero changed anything.
   */
  lemma AllowedQuoteAddsUp(points: int, amountRub: int, requested: int, st: Settings)
    requires amountRub >= 0 && requested >= 0
    requires QuoteRedeem(points, amountRub, requested, st).allowed
    ensures var q, s := QuoteRedeem(points, amountRub, requested, st), st.WithDefaults();
            && q.payableRub + q.redeemRub == amountRub
            && q.redeemRub * 100 <= amountRub * s.redeemMaxShare
            && q.redeemRub == q.redeemPoints * s.redeemRate
            && amountRub - q.redeemRub >= 0
            && (requested > 0 ==> q.redeemPoints <= q.maxPoints)
            && (amountRub >= s.earnMinReceipt ==> q.earnPoints == (amountRub - q.redeemRub) * s.earnPercent / 100)
  {
    var s := st.WithDefaults();
    assert s.WithDefaults() == s;
    var share := amountRub * s.redeemMaxShare;
    NonNegProduct(amountRub, s.redeemMaxShare);
    MulMonotone(s.redeemMaxShare, 100, amountRub);
    assert share / 100 * 100 <= share;
    NonNegProduct(amountRub - requested * s.redeemRate, s.earnPercent);
    if requested > 0 {
      AcceptedExactlyUpToMax(points, amountRub, requested, s);
    }
  }

  /** Some receipt and some positive request get an allowed quote. */
  ghost predicate SomeRedemptionAllowed(points: int, st: Settings) {
    exists amountRub, requested :: requested > 0 && QuoteRedeem(points, amountRub, requested, st).allowed
  }

  /** What lookup's flag tells the cashier, given points and a share: some redemption will be allowed. */
  lemma RedemptionAllowedForSomeReceipt(points: int, st: Settings)
    ensures SomeRedemptionAllowed(points, st) <==> CanRedeem(points, st) && points > 0 && st.redeemMaxShare > 0
  {
    var s := st.WithDefaults();
    assert s.WithDefaults() == s;
    RedeemableForSomeAmount(points, st);
    if SomeRedemptionAllowed(points, st) {
      var amountRub, requested :| requested > 0 && QuoteRedeem(points, amountRub, requested, st).allowed;
      AcceptedExactlyUpToMax(points, amountRub, requested, s);
      assert MaxRedeemable(points, amountRub, st) == MaxRedeemable(points, amountRub, s) > 0;
    }
    if CanRedeem(points, st) && points > 0 && st.redeemMaxShare > 0 {
      var amountRub :| MaxRedeemable(points, amountRub, st) > 0;
      var max := MaxRedeemable(points, amountRub, st);
      assert max == MaxRedeemable(points, amountRub, s) && st.redeemMin <= max;
      AcceptedExactlyUpToMax(points, amountRub, max, s);
      assert QuoteRedeem(points, amountRub, max, st).allowed;
    }
  }

  // ---- splitting a purchase ------------------------------------------------------------------

  datatype Part = Part(amountRub: int, redeemPoints: int)

  predicate Payable(p: Part, st: Settings) {
    p.amountRub >= 0 && 0 <= p.redeemPoints && p.redeemPoints * st.WithDefaults().redeemRate <= p.amountRub
  }

  function Whole(parts: seq<Part>): Part {
    if parts == [] then Part(0, 0)
    else
      var w := Whole(parts[..|parts| - 1]);
      var p := parts[|parts| - 1];
      Part(w.amountRub + p.amountRub, w.redeemPoints + p.redeemPoints)
  }

  function Earn(p: Part, st: Settings): int {
    ComputeEarn(p.amountRub, p.redeemPoints, st)
  }

  function TotalEarn(parts: seq<Part>, st: Settings): int {
    if parts == [] then 0
    else TotalEarn(parts[..|parts| - 1], st) + Earn(parts[|parts| - 1], st)
  }

  /** Hundredths of a point before the floor. */
  function Raw(p: Part, st: Settings): int {
    (p.amountRub - p.redeemPoints * st.WithDefaults().redeemRate) * st.WithDefaults().earnPercent
  }

  lemma RawAdds(p: Part, q: Part, st: Settings)
    ensures Raw(Part(p.amountRub + q.amountRub, p.redeemPoints + q.redeemPoints), st) == Raw(p, st) + Raw(q, st)
  {
    var r, e := st.WithDefaults().redeemRate, st.WithDefaults().earnPercent;
    assert (p.redeemPoints + q.redeemPoints) * r == p.redeemPoints * r + q.redeemPoints * r;
    var x, y := p.amountRub - p.redeemPoints * r, q.amountRub - q.redeemPoints * r;
    assert (x + y) * e == x * e + y * e;
  }

  lemma EarnIsFloor(p: Part, st: Settings)
    requires Payable(p, st)
    ensures Raw(p, st) >= 0
    ensures Earn(p, st) == if p.amountRub < st.earnMinReceipt then 0 else Raw(p, st) / 100
  {
    NonNegProduct(p.amountRub - p.redeemPoints * st.WithDefaults().redeemRate, st.WithDefaults().earnPercent);
  }

  predicate AllPayable(parts: seq<Part>, st: Settings) {
    forall i :: 0 <= i < |parts| ==> Payable(parts[i], st)
  }

  predicate AllReachMinimum(parts: seq<Part>, st: Settings) {
    forall i :: 0 <= i < |parts| ==> parts[i].amountRub >= st.earnMinReceipt
  }

  lemma {:induction false} WholeIsPayable(parts: seq<Part>, st: Settings)
    requires AllPayable(parts, st)
    ensures Payable(Whole(parts), st)
    ensures forall i :: 0 <= i < |parts| ==> parts[i].amountRub <= Whole(parts).amountRub
  {
    if parts != [] {
      var front, p := parts[..|parts| - 1], parts[|parts| - 1];
      WholeIsPayable(front, st);
      var r := st.WithDefaults().redeemRate;
      assert (Whole(front).redeemPoints + p.redeemPoints) * r == Whole(front).redeemPoints * r + p.redeemPoints * r;
      forall i | 0 <= i < |parts| ensures parts[i].amountRub <= Whole(parts).amountRub {
        assert i < |front| ==> parts[i] == front[i];
      }
    }
  }

  /** The floors of the parts against the floor of the whole, ignoring the minimum receipt. */
  lemma {:induction false} FloorsOfParts(parts: seq<Part>, st: Settings)
    requires AllPayable(parts, st)
    ensures 0 <= Raw(Whole(parts), st)
    ensures TotalEarn(parts, st) <= Raw(Whole(parts), st) / 100
    ensures AllReachMinimum(parts, st) ==>
              Raw(Whole(parts), st) <= 100 * TotalEarn(parts, st) + 99 * |parts|
  {
    if parts == [] {
      assert Raw(Part(0, 0), st) == 0;
    } else {
      var front, p := parts[..|parts| - 1], parts[|parts| - 1];
      FloorsOfParts(front, st);
      EarnIsFloor(p, st);
      RawAdds(Whole(front), p, st);
    }
  }

  /**
   Splitting a purchase never earns more, and loses less than one point a cut when every part
   reaches the minimum receipt.
   */
  lemma SplittingNeverEarnsMore(parts: seq<Part>, st: Settings)
    requires parts != [] && AllPayable(parts, st)
    ensures TotalEarn(parts, st) <= Earn(Whole(parts), st)
    ensures AllReachMinimum(parts, st) ==> Earn(Whole(parts), st) - (|parts| - 1) <= TotalEarn(parts, st)
  {
    FloorsOfParts(parts, st);
    WholeIsPayable(parts, st);
    EarnIsFloor(Whole(parts), st);
    if Whole(parts).amountRub < st.earnMinReceipt {
      NothingBelowMinimum(parts, st);
    }
  }

  lemma {:induction false} NothingBelowMinimum(parts: seq<Part>, st: Settings)
    requires AllPayable(parts, st)
    requires forall i :: 0 <= i < |parts| ==> parts[i].amountRub < st.earnMinReceipt
    ensures TotalEarn(parts, st) == 0
  {
    if parts != [] {
      NothingBelowMinimum(parts[..|parts| - 1], st);
    }
  }

  /** With the redemption fixed, a larger receipt never earns less. */
  lemma EarnMonotoneInAmount(a: int, b: int, redeemPoints: int, st: Settings)
    requires a <= b
    ensures ComputeEarn(a, redeemPoints, st) <= ComputeEarn(b, redeemPoints, st)
  {
    var s := st.WithDefaults();
    var x, y := a - redeemPoints * s.redeemRate, b - redeemPoints * s.redeemRate;
    var x0, y0 := if x < 0 then 0 else x, if y < 0 then 0 else y;
    MulMonotone(x0, y0, s.earnPercent);
    NonNegProduct(x0, s.earnPercent);
    NonNegProduct(y0, s.earnPercent);
  }

  // ---- settings ------------------------------------------------------------------------------

  const INT_KEYS := ["earn_percent", "earn_min_receipt", "redeem_rate", "redeem_min", "redeem_max_share"]

  function IntField(st: Settings, key: string): int
    requires key in INT_KEYS
  {
    if key == "earn_percent" then st.earnPercent
    else if key == "earn_min_receipt" then st.earnMinReceipt
    else if key == "redeem_rate" then st.redeemRate
    else if key == "redeem_min" then st.redeemMin
    else st.redeemMaxShare
  }

  /** Storing a number under one key changes exactly that field when the map is parsed again. */
  lemma StoredNumberIsReadBack(m: map<string, string>, key: string, n: int)
    requires key in INT_KEYS && IsInt64(n)
    ensures var m' := m[key := FormatInt(n)];
            && IntField(ParseSettings(m'), key) == n
            && (forall k :: k in INT_KEYS && k != key ==>
                IntField(ParseSettings(m'), k) == IntField(ParseSettings(m), k))
  {
    AtoiOfFormatInt(n);
  }

  function DefaultOf(key: string): int
    requires key in INT_KEYS
  {
    if key == "earn_percent" then 5
    else if key == "earn_min_receipt" then 0
    else if key == "redeem_rate" then 1
    else if key == "redeem_min" then 100
    else 50
  }

  /** A number that is missing or does not parse is its documented default. */
  lemma UnreadableNumberIsDefault(m: map<string, string>, key: string)
    requires key in INT_KEYS && (key in m ==> Atoi(TrimSpace(m[key])).None?)
    ensures IntField(ParseSettings(m), key) == DefaultOf(key)
  {
  }

  /** A text is as stored unless it is missing or empty. */
  lemma TextsAreAsStored(m: map<string, string>)
    ensures var st := ParseSettings(m);
            && st.earnRound == (if "earn_round" in m && m["earn_round"] != "" then m["earn_round"] else "down")
            && st.earnBase == (if "earn_base" in m && m["earn_base"] != "" then m["earn_base"]
                               else "after_store_discount_before_points")
  {
  }

  /** Points never expire when the setting is missing, blank or null; else after its number, or 0 if unreadable. */
  lemma ExpiryIsAsStored(m: map<string, string>, n: int)
    requires IsInt64(n)
    ensures var days := ParseSettings(m).expireDays;
            && ("expire_days" !in m ==> days == None)
            && ("expire_days" in m && TrimSpace(m["expire_days"]) == FormatInt(n) ==> days == Some(n))
            && ("expire_days" in m && Atoi(TrimSpace(m["expire_days"])).None? ==>
                  days == if TrimSpace(m["expire_days"]) in {"", "null"} then None else Some(0))
  {
    if "expire_days" in m {
      TrimSpaceIdempotent(m["expire_days"]);
    }
    AtoiOfFormatInt(n);
    NullIsNoNumber();
  }

  lemma NullIsNoNumber()
    ensures Atoi("").None? && Atoi("null").None?
  {
    assert !IsDigit("null"[0]);
  }
}
