/** The loyalty rules of internal/loyalty/rules.go over unbounded integers; Machine64 adds the 64-bit width. */
module Rules {
  import opened Decimal
  import opened Wrappers

  datatype Code =
    | InsufficientPoints
    | BelowMinRedeem
    | ExceedsShare
    | CustomerNotFound
    | CustomerBlocked
    | CustomerDeleted
    | DuplicateReceipt
    | InvalidRequest

  datatype Settings = Settings(
    earnPercent: int,
    earnRound: string,
    earnBase: string,
    earnMinReceipt: int,
    redeemRate: int,
    redeemMin: int,
    redeemMaxShare: int,
    expireDays: Option<int>
  ) {
    function WithDefaults(): Settings {
      this.(
        redeemRate := if redeemRate <= 0 then 1 else redeemRate,
        earnPercent := if earnPercent < 0 then 0 else earnPercent,
        redeemMaxShare := if redeemMaxShare < 0 then 0 else if redeemMaxShare > 100 then 100 else redeemMaxShare,
        earnRound := if earnRound == "" then "down" else earnRound
      )
    }
  }

  const DEFAULT_SETTINGS :=
    Settings(5, "down", "after_store_discount_before_points", 0, 1, 100, 50, None)

  function IntSetting(m: map<string, string>, key: string, default: int): int {
    if key in m then AtoiOr(m[key], default) else default
  }

  function AtoiOr(s: string, default: int): int {
    var v := Atoi(TrimSpace(s));
    if v.Some? then v.value else default
  }

  function TextSetting(m: map<string, string>, key: string, default: string): string {
    if key in m && m[key] != "" then m[key] else default
  }

  function ParseSettings(m: map<string, string>): Settings {
    var d := DEFAULT_SETTINGS;
    Settings(
      IntSetting(m, "earn_percent", d.earnPercent),
      TextSetting(m, "earn_round", d.earnRound),
      TextSetting(m, "earn_base", d.earnBase),
      IntSetting(m, "earn_min_receipt", d.earnMinReceipt),
      IntSetting(m, "redeem_rate", d.redeemRate),
      IntSetting(m, "redeem_min", d.redeemMin),
      IntSetting(m, "redeem_max_share", d.redeemMaxShare),
      if "expire_days" !in m then d.expireDays
      else
        var v := TrimSpace(m["expire_days"]);
        if v == "" || v == "null" then None else Some(AtoiOr(v, 0))
    )
  }

  /** Go's division by a positive divisor: truncates toward zero. */
  function Quot(a: int, b: int): int
    requires b > 0
  {
    if a >= 0 then a / b else -(-a / b)
  }

  function ComputeEarn(amountRub: int, redeemPoints: int, st: Settings): int {
    var s := st.WithDefaults();
    if amountRub < s.earnMinReceipt then 0
    else
      var base := amountRub - redeemPoints * s.redeemRate;
      Quot((if base < 0 then 0 else base) * s.earnPercent, 100)
  }

  function MaxRedeemable(points: int, amountRub: int, st: Settings): int {
    var s := st.WithDefaults();
    if points <= 0 || amountRub <= 0 then 0
    else
      var maxByShare := Quot(Quot(amountRub * s.redeemMaxShare, 100), s.redeemRate);
      var max := if maxByShare < points then maxByShare else points;
      if max < s.redeemMin then 0 else max
  }

  /** None when the redemption is accepted. */
  function CheckRedeem(points: int, amountRub: int, requested: int, st: Settings): Option<Code> {
    var s := st.WithDefaults();
    if requested == 0 then None
    else if requested < 0 then Some(InvalidRequest)
    else if requested < s.redeemMin then Some(BelowMinRedeem)
    else if requested > points then Some(InsufficientPoints)
    else if requested * s.redeemRate > Quot(amountRub * s.redeemMaxShare, 100) then Some(ExceedsShare)
    else None
  }

  datatype Quote = Quote(
    allowed: bool,
    code: Option<Code>,
    requestedPoints: int,
    maxPoints: int,
    redeemPoints: int,
    redeemRub: int,
    earnPoints: int,
    payableRub: int,
    currentPoints: int
  )

  function QuoteRedeem(points: int, amountRub: int, requested: int, st: Settings): Quote {
    var s := st.WithDefaults();
    var max := MaxRedeemable(points, amountRub, s);
    var refused := CheckRedeem(points, amountRub, requested, s);
    if refused.Some? then
      Quote(false, refused, requested, max, 0, 0, 0, 0, points)
    else
      var redeemRub := requested * s.redeemRate;
      var payable := amountRub - redeemRub;
      Quote(true, None, requested, max, requested, redeemRub, ComputeEarn(amountRub, requested, s),
            if payable < 0 then 0 else payable, points)
  }
}
