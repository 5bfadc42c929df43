/** Date-effective exchange rules: ticks, daily price limits, and what the limits mean on the price grid. */
module MarketRules {
  import opened Options
  import opened Rounding

  datatype Market = KOSPI | KOSDAQ

  /** A value in force from `from` on: a regime from a date, or a tick from a price. */
  datatype Step<T> = Step(from: int, value: T)

  /** The tick bands of the two markets. */
  datatype Tables = Tables(kospi: seq<Step<int>>, kosdaq: seq<Step<int>>) {
    function Of(market: Market): seq<Step<int>> {
      match market
      case KOSPI => kospi
      case KOSDAQ => kosdaq
    }
  }

  datatype Ratio = Ratio(num: int, den: int) {
    predicate Valid() {
      0 < num < den
    }

    function Value(): real
      requires den != 0
    {
      num as real / den as real
    }
  }

  datatype Rules = Rules(ticks: seq<Step<Tables>>, limits: seq<Step<Ratio>>)

  ghost predicate Ascending<T>(steps: seq<Step<T>>) {
    forall i, j | 0 <= i < j < |steps| :: steps[i].from < steps[j].from
  }

  /** Bands start at zero, ascend, and have positive ticks. */
  ghost predicate ValidBands(bands: seq<Step<int>>) {
    bands != [] && bands[0].from == 0 && Ascending(bands) && forall i | 0 <= i < |bands| :: bands[i].value > 0
  }

  ghost predicate ValidRules(rules: Rules) {
    && Ascending(rules.ticks) && Ascending(rules.limits)
    && (forall i | 0 <= i < |rules.ticks| :: ValidBands(rules.ticks[i].value.kospi) && ValidBands(rules.ticks[i].value.kosdaq))
    && (forall i | 0 <= i < |rules.limits| :: rules.limits[i].value.Valid())
  }

  // ----- checking a rules document -----

  /** Regimes are accepted exactly when there is one and they ascend. */
  method CheckAscending<T>(steps: seq<Step<T>>) returns (ok: bool)
    ensures ok <==> steps != [] && Ascending(steps)
  {
    if steps == [] {
      return false;
    }
    for n := 1 to |steps|
      invariant Ascending(steps[..n])
    {
      if steps[n].from <= steps[n - 1].from {
        return false;
      }
      forall i | 0 <= i < n ensures steps[i].from < steps[n].from {
        assert i == n - 1 || steps[..n][i].from < steps[..n][n - 1].from;
      }
    }
    assert steps[..|steps|] == steps;
    ok := true;
  }

  /** Tick bands are accepted exactly when they are usable. */
  method CheckBands(bands: seq<Step<int>>) returns (ok: bool)
    ensures ok <==> ValidBands(bands)
  {
    if bands == [] {
      return false;
    }
    for n := 0 to |bands|
      invariant forall i | 0 <= i < n :: bands[i].from >= 0 && bands[i].value > 0
    {
      if bands[n].from < 0 || bands[n].value <= 0 {
        return false;
      }
    }
    if bands[0].from != 0 {
      return false;
    }
    ok := CheckAscending(bands);
  }

  // ----- looking up -----

  /** The value in force at `x`: that of the last step at or before it. */
  function InForce<T>(steps: seq<Step<T>>, x: int): Option<T> {
    if steps == [] then None
    else if steps[|steps| - 1].from <= x then Some(steps[|steps| - 1].value)
    else InForce(steps[..|steps| - 1], x)
  }

  /** Nothing is in force exactly before the first step, otherwise the greatest step not after `x`. */
  lemma {:induction false} InForceMeans<T>(steps: seq<Step<T>>, x: int)
    requires Ascending(steps)
    ensures InForce(steps, x).None? <==> steps == [] || x < steps[0].from
    ensures InForce(steps, x).Some? ==>
      exists k | 0 <= k < |steps| :: GreatestAt(steps, x, k) && InForce(steps, x).value == steps[k].value
  {
    if steps != [] {
      var last := |steps| - 1;
      if steps[last].from <= x {
        assert GreatestAt(steps, x, last);
      } else {
        InForceMeans(steps[..last], x);
        if InForce(steps, x).Some? {
          var k :| 0 <= k < |steps[..last]| && GreatestAt(steps[..last], x, k) &&
            InForce(steps, x).value == steps[..last][k].value;
          assert GreatestAt(steps, x, k);
        }
      }
    }
  }

  ghost predicate GreatestAt<T>(steps: seq<Step<T>>, x: int, k: int)
    requires 0 <= k < |steps|
  {
    steps[k].from <= x && forall j | k < j < |steps| :: x < steps[j].from
  }

  /** Only the steps before the first later one matter. */
  lemma {:induction false} InForcePrefix<T>(steps: seq<Step<T>>, x: int, n: nat)
    requires n <= |steps| && forall j | n <= j < |steps| :: x < steps[j].from
    ensures InForce(steps, x) == InForce(steps[..n], x)
    decreases |steps|
  {
    if n == |steps| {
      assert steps[..n] == steps;
    } else {
      InForcePrefix(steps[..|steps| - 1], x, n);
      assert steps[..|steps| - 1][..n] == steps[..n];
    }
  }

  /** Scan the steps in order and stop at the first later one. */
  method Lookup<T>(steps: seq<Step<T>>, x: int) returns (chosen: Option<T>)
    requires Ascending(steps)
    ensures chosen == InForce(steps, x)
  {
    chosen := None;
    for n := 0 to |steps|
      invariant chosen == InForce(steps[..n], x)
    {
      if x < steps[n].from {
        InForcePrefix(steps, x, n);
        return;
      }
      chosen := Some(steps[n].value);
      assert steps[..n + 1][n] == steps[n];
    }
    assert steps[..|steps|] == steps;
  }

  /** The tick at a price; prices below every band use the first band. */
  function BandTick(bands: seq<Step<int>>, price: int): int
    requires bands != []
  {
    match InForce(bands, price)
    case None => bands[0].value
    case Some(tick) => tick
  }

  lemma BandTickPositive(bands: seq<Step<int>>, price: int)
    requires ValidBands(bands)
    ensures BandTick(bands, price) > 0
  {
    InForceMeans(bands, price);
  }

  method ScanBands(bands: seq<Step<int>>, price: int) returns (tick: int)
    requires ValidBands(bands)
    ensures tick == BandTick(bands, price)
  {
    tick := bands[0].value;
    for n := 0 to |bands|
      invariant tick == match InForce(bands[..n], price) case None => bands[0].value case Some(t) => t
    {
      if price < bands[n].from {
        InForcePrefix(bands, price, n);
        return;
      }
      tick := bands[n].value;
      assert bands[..n + 1][n] == bands[n];
    }
    assert bands[..|bands|] == bands;
  }

  lemma TablesValid(rules: Rules, session: int)
    requires ValidRules(rules) && InForce(rules.ticks, session).Some?
    ensures forall market :: ValidBands(InForce(rules.ticks, session).value.Of(market))
  {
    InForceMeans(rules.ticks, session);
  }

  lemma LimitValid(rules: Rules, session: int)
    requires ValidRules(rules) && InForce(rules.limits, session).Some?
    ensures InForce(rules.limits, session).value.Valid()
  {
    InForceMeans(rules.limits, session);
  }

  /** The quoting tick; no answer for a non-positive price or an uncovered session. */
  method TickSize(rules: Rules, session: int, market: Market, price: int) returns (tick: Option<int>)
    requires ValidRules(rules)
    ensures tick == TickAt(rules, session, market, price)
    ensures tick.Some? ==> tick.value > 0
  {
    if price <= 0 {
      return None;
    }
    var tables := Lookup(rules.ticks, session);
    if tables.None? {
      return None;
    }
    TablesValid(rules, session);
    var size := ScanBands(tables.value.Of(market), price);
    BandTickPositive(tables.value.Of(market), price);
    return Some(size);
  }

  ghost function TickAt(rules: Rules, session: int, market: Market, price: int): Option<int>
    requires ValidRules(rules)
  {
    if price <= 0 then None
    else
      match InForce(rules.ticks, session)
      case None => None
      case Some(tables) => TablesValid(rules, session); Some(BandTick(tables.Of(market), price))
  }

  // ----- arithmetic -----

  function FloorTo(x: int, t: int): int
    requires t > 0
  {
    Times(x / t, t)
  }

  function CeilTo(x: int, t: int): int
    requires t > 0
  {
    Times(-(-x / t), t)
  }

  ghost predicate Multiple(x: int, t: int) {
    exists q: int :: Times(q, t) == x
  }

  function Times(q: int, t: int): int {
    q * t
  }

  lemma TimesNegative(q: int, t: int)
    ensures Times(-q, t) == -Times(q, t)
  {
  }

  lemma TimesOrder(q: int, r: int, t: int)
    requires t > 0 && Times(q, t) < Times(r, t) + t
    ensures q <= r
  {
    if q >= r + 1 {
      IntMulMonotone(r + 1, q, t);
    }
  }

  lemma FloorToBounds(x: int, t: int)
    requires t > 0
    ensures x - t < FloorTo(x, t) <= x
  {
    assert x == t * (x / t) + x % t;
  }

  lemma FloorToAbove(x: int, t: int, q: int)
    requires t > 0 && Times(q, t) <= x
    ensures Times(q, t) <= FloorTo(x, t)
  {
    FloorToBounds(x, t);
    TimesOrder(q, x / t, t);
    IntMulMonotone(q, x / t, t);
  }

  /** Rounding down gives the greatest multiple not above. */
  lemma FloorToGreatest(x: int, t: int, m: int)
    requires t > 0
    ensures x - t < FloorTo(x, t) <= x && Multiple(FloorTo(x, t), t)
    ensures Multiple(m, t) && m <= x ==> m <= FloorTo(x, t)
  {
    FloorToBounds(x, t);
    assert Times(x / t, t) == FloorTo(x, t);
    if Multiple(m, t) && m <= x {
      var q :| Times(q, t) == m;
      FloorToAbove(x, t, q);
    }
  }

  lemma CeilToMirror(x: int, t: int)
    requires t > 0
    ensures CeilTo(x, t) == -FloorTo(-x, t)
  {
    TimesNegative(-x / t, t);
  }

  lemma MultipleMirror(m: int, t: int)
    requires Multiple(m, t)
    ensures Multiple(-m, t)
  {
    var q :| Times(q, t) == m;
    TimesNegative(q, t);
  }

  /** Rounding up gives the least multiple not below. */
  lemma CeilToLeast(x: int, t: int, m: int)
    requires t > 0
    ensures x <= CeilTo(x, t) < x + t && Multiple(CeilTo(x, t), t)
    ensures Multiple(m, t) && x <= m ==> CeilTo(x, t) <= m
  {
    CeilToMirror(x, t);
    FloorToGreatest(-x, t, -m);
    MultipleMirror(FloorTo(-x, t), t);
    if Multiple(m, t) {
      MultipleMirror(m, t);
    }
  }

  // ----- the limits -----

  function RealUnits(base: int, ratio: real, tick: int): real
    requires tick > 0
  {
    base as real * ratio / tick as real
  }

  /** Limit width: the base price times the ratio, truncated to the base tick. */
  function RealWidth(base: int, ratio: real, tick: int): int
    requires tick > 0
  {
    Times(RealUnits(base, ratio, tick).Floor, tick)
  }

  function Width(base: int, ratio: Ratio, tick: int): int
    requires tick > 0 && ratio.Valid()
  {
    Times(base * ratio.num / (ratio.den * tick), tick)
  }

  lemma RealTimes(a: int, b: int)
    ensures (a * b) as real == Product(a as real, b as real)
  {
  }

  function Product(a: real, b: real): real {
    a * b
  }

  lemma PartOf(u: real, b: real)
    requires b > 0.0 && 0.0 <= u < 1.0
    ensures 0.0 <= Product(u, b) < b
  {
  }

  lemma Distribute(q: real, u: real, b: real)
    ensures Product(q + u, b) == Product(q, b) + Product(u, b)
  {
  }

  lemma StrictlyBetween(y: real, q: real, b: real)
    requires b > 0.0 && q <= y < q + 1.0
    ensures Product(q, b) <= Product(y, b) < Product(q, b) + b
  {
    var u := y - q;
    PartOf(u, b);
    Distribute(q, u, b);
    assert q + u == y;
  }

  lemma WholeBetween(a: int, p: int, b: int, x: real)
    requires p as real == x && x <= a as real < x + b as real
    ensures p <= a < p + b
  {
  }

  lemma FloorTimes(y: real, q: int, a: int, b: int)
    requires b > 0 && Product(y, b as real) == a as real && q == y.Floor
    ensures q * b <= a < q * b + b
  {
    StrictlyBetween(y, q as real, b as real);
    RealTimes(q, b);
    WholeBetween(a, q * b, b, Product(q as real, b as real));
  }

  /** What the floor of a real quotient is as an integer quotient. */
  lemma FloorOfQuotient(y: real, a: int, b: int)
    requires b > 0 && Product(y, b as real) == a as real
    ensures y.Floor == a / b
  {
    FloorTimes(y, y.Floor, a, b);
    QuotientIs(a, b, y.Floor);
  }

  lemma FractionOfFraction(b: real, n: real, d: real, t: real)
    requires d > 0.0 && t > 0.0
    ensures b * (n / d) / t * (d * t) == b * n
  {
    var x := b * (n / d) / t;
    assert x * t == b * (n / d);
    assert (n / d) * d == n;
    assert b * (n / d) * d == b * ((n / d) * d);
    assert x * (d * t) == (x * t) * d;
  }

  lemma UnitsScaled(base: int, num: int, den: int, tick: int)
    requires den > 0 && tick > 0
    ensures den * tick > 0 &&
      Product(RealUnits(base, num as real / den as real, tick), (den * tick) as real) == (base * num) as real
  {
    FractionOfFraction(base as real, num as real, den as real, tick as real);
    RealTimes(base, num);
    RealTimes(den, tick);
    IntMulMonotone(1, den, tick);
  }

  lemma UnitsExact(y: real, base: int, num: int, den: int, tick: int)
    requires den * tick > 0 && Product(y, (den * tick) as real) == (base * num) as real
    ensures y.Floor == base * num / (den * tick)
  {
    FloorOfQuotient(y, base * num, den * tick);
  }

  /** The integer width used on columns is the decimal one used on single prices. */
  lemma WidthIsExact(base: int, ratio: Ratio, tick: int)
    requires tick > 0 && ratio.Valid()
    ensures RealWidth(base, ratio.Value(), tick) == Width(base, ratio, tick)
  {
    UnitsScaled(base, ratio.num, ratio.den, tick);
    UnitsExact(RealUnits(base, ratio.Value(), tick), base, ratio.num, ratio.den, tick);
  }
}
