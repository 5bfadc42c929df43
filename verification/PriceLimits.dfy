/** Daily price limits, and what they are on the price grid. */
module PriceLimits {
  import opened Options
  import opened Rounding
  import opened MarketRules
  import opened PriceGrid

  datatype Limits = Limits(upper: int, lower: int)

  // ----- the width -----

  lemma WidthRange(base: int, ratio: Ratio, tick: int)
    requires base > 0 && tick > 0 && ratio.Valid()
    ensures Width(base, ratio, tick) >= 0
    ensures Times(Width(base, ratio, tick), ratio.den) <= Times(base, ratio.num)
  {
    var a, b := base * ratio.num, ratio.den * tick;
    IntMulMonotone(1, base, ratio.num);
    IntMulMonotone(1, ratio.den, tick);
    QuotientNonNegative(a, b);
    IntMulMonotone(0, a / b, tick);
    assert a / b * b <= a;
    Regroup(a / b, ratio.den, tick);
  }

  lemma Regroup(q: int, d: int, t: int)
    ensures q * (d * t) == Times(Times(q, t), d)
  {
  }

  /** The width is the greatest multiple of the tick that is at most the ratio of the base. */
  lemma WidthIsGreatest(base: int, ratio: Ratio, tick: int, m: int)
    requires base > 0 && tick > 0 && ratio.Valid()
    ensures Multiple(Width(base, ratio, tick), tick) && Width(base, ratio, tick) * ratio.den <= base * ratio.num
    ensures Multiple(m, tick) && m * ratio.den <= base * ratio.num ==> m <= Width(base, ratio, tick)
  {
    var a, b := base * ratio.num, ratio.den * tick;
    WidthRange(base, ratio, tick);
    assert Times(a / b, tick) == Width(base, ratio, tick);
    if Multiple(m, tick) && m * ratio.den <= a {
      var q :| Times(q, tick) == m;
      Regroup(q, ratio.den, tick);
      IntMulMonotone(1, ratio.den, tick);
      FloorToAbove(a, b, q);
      TimesOrder(q, a / b, b);
      IntMulMonotone(q, a / b, tick);
    }
  }

  /** The width is less than the base price, so the lower bound is a price. */
  lemma WidthBelowBase(base: int, ratio: Ratio, tick: int)
    requires base > 0 && tick > 0 && ratio.Valid()
    ensures 0 <= Width(base, ratio, tick) < base
  {
    WidthRange(base, ratio, tick);
    var w := Width(base, ratio, tick);
    if base <= w {
      IntMulMonotone(base, w, ratio.den);
      StrictProduct(base, ratio.num, ratio.den);
    }
  }

  lemma StrictProduct(base: int, num: int, den: int)
    requires base > 0 && num < den
    ensures Times(base, num) < Times(base, den)
  {
    IntMulMonotone(1, base, den - num);
  }

  // ----- the limits of one market -----

  function LimitsOf(bands: seq<Step<int>>, ratio: Ratio, base: int): Limits
    requires ValidBands(bands) && ratio.Valid()
  {
    BandTickPositive(bands, base);
    var width := Width(base, ratio, BandTick(bands, base));
    BandTickPositive(bands, base + width);
    BandTickPositive(bands, base - width);
    var upperTick, lowerTick := BandTick(bands, base + width), BandTick(bands, base - width);
    Limits(FloorTo(base + width, upperTick), Max(CeilTo(base - width, lowerTick), lowerTick))
  }

  /** The daily limits around a base price.  There is no answer for a non-positive base or an uncovered session. */
  method DailyLimits(rules: Rules, session: int, market: Market, base: int) returns (limits: Option<Limits>)
    requires ValidRules(rules)
    ensures limits.Some? <==> base > 0 && InForce(rules.limits, session).Some? && InForce(rules.ticks, session).Some?
    ensures limits.Some? ==>
      && ValidBands(InForce(rules.ticks, session).value.Of(market)) && InForce(rules.limits, session).value.Valid()
      && limits.value == LimitsOf(InForce(rules.ticks, session).value.Of(market), InForce(rules.limits, session).value, base)
  {
    if base <= 0 {
      return None;
    }
    var ratio := Lookup(rules.limits, session);
    if ratio.None? {
      return None;
    }
    LimitValid(rules, session);
    var baseTick := TickSize(rules, session, market, base);
    if baseTick.None? {
      return None;
    }
    TablesValid(rules, session);
    var width := RealWidth(base, ratio.value.Value(), baseTick.value);
    WidthIsExact(base, ratio.value, baseTick.value);
    WidthBelowBase(base, ratio.value, baseTick.value);
    var upperTick := TickSize(rules, session, market, base + width);
    var lowerTick := TickSize(rules, session, market, base - width);
    var snapped := CeilTo(base - width, lowerTick.value);
    limits := Some(Limits(FloorTo(base + width, upperTick.value),
      if snapped >= lowerTick.value then snapped else lowerTick.value));
  }

  // ----- the limits on the price grid -----

  /** The floor under the lower limit never binds: rounding a positive price up reaches at least one tick. */
  lemma LowerFloorIsIdle(raw: int, t: int)
    requires t > 0 && raw > 0
    ensures CeilTo(raw, t) >= t
  {
    CeilToLeast(raw, t, raw);
    var q := -(-raw / t);
    assert Times(q, t) == CeilTo(raw, t);
    if q <= 0 {
      IntMulMonotone(q, 0, t);
    } else {
      IntMulMonotone(1, q, t);
    }
  }

  /** Where rounding is right the limits are the outermost quotable prices within the truncated width, and they
      bracket a quotable base. */
  lemma LimitsAreOutermost(bands: seq<Step<int>>, ratio: Ratio, base: int)
    requires ValidBands(bands) && StartsRoundDown(bands) && EndsRoundUp(bands) && ratio.Valid() && base > 0
    ensures BandTick(bands, base) > 0
    ensures var width, limits := Width(base, ratio, BandTick(bands, base)), LimitsOf(bands, ratio, base);
      && IsGreatestQuotable(bands, limits.upper, base + width) && IsLeastQuotable(bands, limits.lower, base - width)
      && (Quotable(bands, base) ==> limits.lower <= base <= limits.upper)
  {
    BandTickPositive(bands, base);
    var width := Width(base, ratio, BandTick(bands, base));
    WidthBelowBase(base, ratio, BandTick(bands, base));
    RoundsDownExactly(bands);
    RoundsUpExactly(bands);
    assert RoundsDownAt(bands, base + width) && RoundsUpAt(bands, base - width);
    LowerFloorIsIdle(base - width, BandTick(bands, base - width));
  }

  /** In particular on grid bands. */
  lemma LimitsOnGrid(bands: seq<Step<int>>, ratio: Ratio, base: int)
    requires OnGridBands(bands) && ratio.Valid() && base > 0
    ensures BandTick(bands, base) > 0
    ensures var width, limits := Width(base, ratio, BandTick(bands, base)), LimitsOf(bands, ratio, base);
      && IsGreatestQuotable(bands, limits.upper, base + width) && IsLeastQuotable(bands, limits.lower, base - width)
      && (Quotable(bands, base) ==> limits.lower <= base <= limits.upper)
  {
    OnGridRounds(bands);
    LimitsAreOutermost(bands, ratio, base);
  }

  /** Whatever the bands, the limits move from the base by no more than the ratio of it. */
  lemma LimitsWithinRatio(bands: seq<Step<int>>, ratio: Ratio, base: int)
    requires ValidBands(bands) && ratio.Valid() && base > 0
    ensures var limits := LimitsOf(bands, ratio, base);
      Times(limits.upper - base, ratio.den) <= Times(base, ratio.num) &&
        Times(base - limits.lower, ratio.den) <= Times(base, ratio.num)
  {
    var t := BandTick(bands, base);
    BandTickPositive(bands, base);
    var width, limits := Width(base, ratio, t), LimitsOf(bands, ratio, base);
    WidthBelowBase(base, ratio, t);
    WidthRange(base, ratio, t);
    BandTickPositive(bands, base + width);
    BandTickPositive(bands, base - width);
    FloorToBounds(base + width, BandTick(bands, base + width));
    CeilToLeast(base - width, BandTick(bands, base - width), 0);
    IntMulMonotone(limits.upper - base, width, ratio.den);
    IntMulMonotone(base - limits.lower, width, ratio.den);
  }
}
