/**
 The rules as the program computes them, every sum and product wrapped to a signed 64-bit int.
 Within the stated bounds nothing wraps, so the unbounded formulas of Rules are what runs.
 */
module Machine64 {
  import opened Decimal
  import opened Rules
  import opened RulesLaws
  import opened Wrappers

  const TWO_64 := 0x1_0000_0000_0000_0000
  const MAX_INT32 := 0x7FFF_FFFF

  function Wrap(x: int): (w: int)
    ensures IsInt64(w)
    ensures IsInt64(x) ==> w == x
  {
    (x - MIN_INT64) % TWO_64 + MIN_INT64
  }

  function ComputeEarn64(amountRub: int, redeemPoints: int, st: Settings): int {
    var s := st.WithDefaults();
    if amountRub < s.earnMinReceipt then 0
    else
      var base := Wrap(amountRub - Wrap(redeemPoints * s.redeemRate));
      Quot(Wrap((if base < 0 then 0 else base) * s.earnPercent), 100)
  }

  function MaxRedeemable64(points: int, amountRub: int, st: Settings): int {
    var s := st.WithDefaults();
    if points <= 0 || amountRub <= 0 then 0
    else
      var maxByShare := Quot(Quot(Wrap(amountRub * s.redeemMaxShare), 100), s.redeemRate);
      var max := if maxByShare < points then maxByShare else points;
      if max < s.redeemMin then 0 else max
  }

  function CheckRedeem64(points: int, amountRub: int, requested: int, st: Settings): Option<Code> {
    var s := st.WithDefaults();
    if requested == 0 then None
    else if requested < 0 then Some(InvalidRequest)
    else if requested < s.redeemMin then Some(BelowMinRedeem)
    else if requested > points then Some(InsufficientPoints)
    else if Wrap(requested * s.redeemRate) > Quot(Wrap(amountRub * s.redeemMaxShare), 100) then Some(ExceedsShare)
    else None
  }

  function QuoteRedeem64(points: int, amountRub: int, requested: int, st: Settings): Quote {
    var s := st.WithDefaults();
    var max := MaxRedeemable64(points, amountRub, s);
    var refused := CheckRedeem64(points, amountRub, requested, s);
    if refused.Some? then
      Quote(false, refused, requested, max, 0, 0, 0, 0, points)
    else
      var redeemRub := Wrap(requested * s.redeemRate);
      var payable := Wrap(amountRub - redeemRub);
      Quote(true, None, requested, max, requested, redeemRub, ComputeEarn64(amountRub, requested, s),
            if payable < 0 then 0 else payable, points)
  }

  /** The new balance of a commit: points - redeem + earn, left to right. */
  function CommitPoints64(points: int, redeemPoints: int, earn: int): int {
    Wrap(Wrap(points - redeemPoints) + earn)
  }

  predicate Bounded(points: int, amountRub: int, st: Settings) {
    && 0 <= points <= MAX_INT32
    && 0 <= amountRub <= MAX_INT32
    && st.redeemRate <= MAX_INT32
    && st.earnPercent <= MAX_INT32
  }

  lemma ProductFits(a: int, b: int)
    requires 0 <= a <= MAX_INT32 && 0 <= b <= MAX_INT32
    ensures 0 <= a * b <= MAX_INT32 * MAX_INT32
  {
    MulMonotone(a, MAX_INT32, b);
    MulMonotone(b, MAX_INT32, MAX_INT32);
  }

  lemma CheckFits(points: int, amountRub: int, requested: int, st: Settings)
    requires Bounded(points, amountRub, st) && 0 <= requested <= MAX_INT64
    ensures CheckRedeem64(points, amountRub, requested, st) == CheckRedeem(points, amountRub, requested, st)
  {
    var s := st.WithDefaults();
    ProductFits(amountRub, s.redeemMaxShare);
    if requested <= points {
      ProductFits(requested, s.redeemRate);
    }
  }

  lemma EarnFits(points: int, amountRub: int, redeemPoints: int, st: Settings)
    requires Bounded(points, amountRub, st) && 0 <= redeemPoints <= points
    ensures ComputeEarn64(amountRub, redeemPoints, st) == ComputeEarn(amountRub, redeemPoints, st)
    ensures 0 <= ComputeEarn(amountRub, redeemPoints, st) <= MAX_INT32 * MAX_INT32
  {
    var s := st.WithDefaults();
    ProductFits(redeemPoints, s.redeemRate);
    var base := amountRub - redeemPoints * s.redeemRate;
    ProductFits(if base < 0 then 0 else base, s.earnPercent);
  }

  /**
   With every input below 2^31 and any non-negative 64-bit request, the wrapped computation of a
   quote and of a commit's balance equals the unbounded one. Only the request may be large: the
   check compares it with the points before multiplying it.
   */
  lemma NothingWraps(points: int, amountRub: int, requested: int, st: Settings)
    requires Bounded(points, amountRub, st) && 0 <= requested <= MAX_INT64
    ensures QuoteRedeem64(points, amountRub, requested, st) == QuoteRedeem(points, amountRub, requested, st)
    ensures CheckRedeem(points, amountRub, requested, st).None? ==>
              var earn := ComputeEarn(amountRub, requested, st);
              CommitPoints64(points, requested, earn) == points - requested + earn
  {
    var s := st.WithDefaults();
    assert s.WithDefaults() == s;
    CheckFits(points, amountRub, requested, s);
    CheckFits(points, amountRub, requested, st);
    ProductFits(amountRub, s.redeemMaxShare);
    if CheckRedeem(points, amountRub, requested, st).None? {
      EarnFits(points, amountRub, requested, st);
      EarnFits(points, amountRub, requested, s);
      ProductFits(requested, s.redeemRate);
    }
  }

  /** The new balance of an adjust. */
  function AdjustPoints64(points: int, delta: int): int {
    Wrap(points + delta)
  }

  /**
   An adjust computes the unbounded balance exactly while that fits 64 bits; beyond, the sum wraps
   below zero and the adjust is refused as if the points were insufficient.
   */
  lemma AdjustFitsExactly(points: int, delta: int)
    requires 0 <= points <= MAX_INT64 && IsInt64(delta)
    ensures AdjustPoints64(points, delta) == points + delta <==> points + delta <= MAX_INT64
    ensures AdjustPoints64(points, delta) < 0 <==> points + delta < 0 || points + delta > MAX_INT64
  {
    if points + delta > MAX_INT64 {
      assert (points + delta - MIN_INT64) % TWO_64 == points + delta - MIN_INT64 - TWO_64;
    }
  }

  /** Without that comparison an oversized request could wrap to a small number of roubles. */
  lemma OversizedRequestWraps()
    ensures var requested := 0x4000_0000_0000_0000;
            IsInt64(requested) && Wrap(requested * 4) == 0 && requested * 4 > 0
  {
  }
}
