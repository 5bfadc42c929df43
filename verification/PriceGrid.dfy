/** The price grid of a tick table: which prices may be quoted, and exactly when rounding to the own tick finds them. */
module PriceGrid {
  import opened Options
  import opened MarketRules

  /** Every band starts at a multiple of its own tick and of the tick before it. */
  ghost predicate OnGridBands(bands: seq<Step<int>>) {
    ValidBands(bands) && forall i | 0 <= i < |bands| :: StartsOnGrid(bands, i)
  }

  ghost predicate StartsOnGrid(bands: seq<Step<int>>, i: int)
    requires 0 <= i < |bands| && ValidBands(bands)
  {
    Multiple(bands[i].from, bands[i].value) && (i > 0 ==> Multiple(bands[i].from, bands[i - 1].value))
  }

  /** A price that may be quoted: a multiple of the tick at its own level. */
  ghost predicate Quotable(bands: seq<Step<int>>, price: int)
    requires bands != []
  {
    price >= 0 && Multiple(price, BandTick(bands, price))
  }

  lemma BandOf(bands: seq<Step<int>>, price: int, k: nat)
    requires ValidBands(bands) && k < |bands| && GreatestAt(bands, price, k)
    ensures BandTick(bands, price) == bands[k].value
  {
    InForceMeans(bands, price);
    InForceAt(bands, price, k);
  }

  lemma InForceAt<T>(steps: seq<Step<T>>, x: int, k: nat)
    requires k < |steps| && GreatestAt(steps, x, k)
    ensures InForce(steps, x) == Some(steps[k].value)
  {
    InForcePrefix(steps, x, k + 1);
    assert steps[..k + 1][k] == steps[k];
  }

  /** A price lies in some band. */
  lemma SomeBand(bands: seq<Step<int>>, price: int) returns (k: nat)
    requires ValidBands(bands) && price >= 0
    ensures k < |bands| && GreatestAt(bands, price, k) && BandTick(bands, price) == bands[k].value
  {
    InForceMeans(bands, price);
    k :| 0 <= k < |bands| && GreatestAt(bands, price, k) && InForce(bands, price).value == bands[k].value;
  }

  ghost predicate IsGreatestQuotable(bands: seq<Step<int>>, price: int, bound: int)
    requires bands != []
  {
    Quotable(bands, price) && price <= bound && forall p | Quotable(bands, p) && p <= bound :: p <= price
  }

  ghost predicate IsLeastQuotable(bands: seq<Step<int>>, price: int, bound: int)
    requires bands != []
  {
    Quotable(bands, price) && bound <= price && forall p | Quotable(bands, p) && bound <= p :: price <= p
  }

  // ----- rounding down -----

  /** Rounding this price down to its own tick gives the greatest quotable price not above it. */
  ghost predicate RoundsDownAt(bands: seq<Step<int>>, raw: int)
    requires bands != []
  {
    BandTick(bands, raw) > 0 && IsGreatestQuotable(bands, FloorTo(raw, BandTick(bands, raw)), raw)
  }

  /** Rounding down is right at the start of every band. */
  ghost predicate StartsRoundDown(bands: seq<Step<int>>)
    requires bands != []
  {
    forall k | 0 <= k < |bands| :: RoundsDownAt(bands, bands[k].from)
  }

  lemma StartInBand(bands: seq<Step<int>>, k: nat)
    requires ValidBands(bands) && k < |bands|
    ensures bands[k].from >= 0 && GreatestAt(bands, bands[k].from, k) &&
      BandTick(bands, bands[k].from) == bands[k].value
  {
    assert k == 0 || bands[0].from < bands[k].from;
    BandOf(bands, bands[k].from, k);
  }

  /** A quotable price up to `raw` is a multiple of the tick there, or lies below the band. */
  lemma BelowOrMultiple(bands: seq<Step<int>>, raw: int, k: nat, p: int)
    requires ValidBands(bands) && k < |bands| && GreatestAt(bands, raw, k) && Quotable(bands, p) && p <= raw
    ensures p < bands[k].from || Multiple(p, bands[k].value)
  {
    if bands[k].from <= p {
      BandOf(bands, p, k);
    }
  }

  lemma DownInsideBand(bands: seq<Step<int>>, raw: int, k: nat)
    requires ValidBands(bands) && k < |bands| && GreatestAt(bands, raw, k) &&
      bands[k].from <= FloorTo(raw, bands[k].value)
    ensures RoundsDownAt(bands, raw)
  {
    var t := bands[k].value;
    var price := FloorTo(raw, t);
    StartInBand(bands, k);
    FloorToGreatest(raw, t, raw);
    BandOf(bands, raw, k);
    BandOf(bands, price, k);
    forall p | Quotable(bands, p) && p <= raw ensures p <= price {
      BelowOrMultiple(bands, raw, k, p);
      FloorToGreatest(raw, t, p);
    }
  }

  lemma DownBelowBand(bands: seq<Step<int>>, raw: int, k: nat)
    requires ValidBands(bands) && k < |bands| && GreatestAt(bands, raw, k) &&
      FloorTo(raw, bands[k].value) < bands[k].from
    requires RoundsDownAt(bands, bands[k].from)
    ensures RoundsDownAt(bands, raw)
  {
    var t, start := bands[k].value, bands[k].from;
    var price := FloorTo(raw, t);
    StartInBand(bands, k);
    BandOf(bands, raw, k);
    FloorToGreatest(start, t, price);
    FloorToGreatest(raw, t, FloorTo(start, t));
    forall p | Quotable(bands, p) && p <= raw ensures p <= price {
      BelowOrMultiple(bands, raw, k, p);
      FloorToGreatest(raw, t, p);
    }
  }

  /** Rounding down is right at every price if and only if it is right at the start of every band. */
  lemma RoundsDownExactly(bands: seq<Step<int>>)
    requires ValidBands(bands)
    ensures (forall raw | raw >= 0 :: RoundsDownAt(bands, raw)) <==> StartsRoundDown(bands)
  {
    if StartsRoundDown(bands) {
      forall raw | raw >= 0 ensures RoundsDownAt(bands, raw) {
        var k := SomeBand(bands, raw);
        if bands[k].from <= FloorTo(raw, bands[k].value) {
          DownInsideBand(bands, raw, k);
        } else {
          DownBelowBand(bands, raw, k);
        }
      }
    }
    forall k | 0 <= k < |bands| ensures bands[k].from >= 0 {
      StartInBand(bands, k);
    }
  }

  // ----- rounding up -----

  /** Rounding this price up to its own tick gives the least quotable price not below it. */
  ghost predicate RoundsUpAt(bands: seq<Step<int>>, raw: int)
    requires bands != []
  {
    BandTick(bands, raw) > 0 && IsLeastQuotable(bands, CeilTo(raw, BandTick(bands, raw)), raw)
  }

  /** Rounding up is right at the last price before the start of every further band. */
  ghost predicate EndsRoundUp(bands: seq<Step<int>>)
    requires bands != []
  {
    forall k | 0 < k < |bands| :: RoundsUpAt(bands, bands[k].from - 1)
  }

  /** A price of band `k` lies below the start of the next. */
  lemma EndInBand(bands: seq<Step<int>>, raw: int, k: nat)
    requires ValidBands(bands) && raw >= 0 && GreatestAtOf(bands, raw, k) && k + 1 < |bands|
    ensures raw <= bands[k + 1].from - 1 && GreatestAt(bands, bands[k + 1].from - 1, k)
    ensures BandTick(bands, bands[k + 1].from - 1) == bands[k].value
  {
    var next := k + 1;
    forall j | k < j < |bands| ensures bands[next].from - 1 < bands[j].from {
      assert j == next || bands[next].from < bands[j].from;
    }
    BandOf(bands, bands[next].from - 1, k);
  }

  ghost predicate GreatestAtOf(bands: seq<Step<int>>, raw: int, k: nat) {
    k < |bands| && GreatestAt(bands, raw, k)
  }

  /** A quotable price from `raw` on is a multiple of the tick there, or lies beyond the band. */
  lemma BeyondOrMultiple(bands: seq<Step<int>>, raw: int, k: nat, p: int)
    requires ValidBands(bands) && raw >= 0 && GreatestAtOf(bands, raw, k) && Quotable(bands, p) && raw <= p
    ensures (k + 1 < |bands| && bands[k + 1].from <= p) || Multiple(p, bands[k].value)
  {
    var j := SomeBand(bands, p);
    if j != k {
      NextBand(bands, raw, k, p, j);
    }
  }

  lemma NextBand(bands: seq<Step<int>>, raw: int, k: nat, p: int, j: nat)
    requires ValidBands(bands) && k < |bands| && j < |bands| && j != k && raw <= p
    requires GreatestAt(bands, raw, k) && GreatestAt(bands, p, j)
    ensures k + 1 < |bands| && raw < bands[k + 1].from <= p
  {
    assert j > k;
    assert j == k + 1 || bands[k + 1].from < bands[j].from;
  }

  lemma UpInsideBand(bands: seq<Step<int>>, raw: int, k: nat)
    requires ValidBands(bands) && raw >= 0 && GreatestAtOf(bands, raw, k)
    requires k + 1 < |bands| ==> CeilTo(raw, bands[k].value) < bands[k + 1].from
    ensures RoundsUpAt(bands, raw)
  {
    var t := bands[k].value;
    var price := CeilTo(raw, t);
    CeilToLeast(raw, t, raw);
    BandOf(bands, raw, k);
    if k + 1 < |bands| {
      EndInBand(bands, raw, k);
    }
    BandOf(bands, price, k);
    forall p | Quotable(bands, p) && raw <= p ensures price <= p {
      BeyondOrMultiple(bands, raw, k, p);
      CeilToLeast(raw, t, p);
    }
  }

  lemma UpBeyondBand(bands: seq<Step<int>>, raw: int, k: nat)
    requires ValidBands(bands) && raw >= 0 && GreatestAtOf(bands, raw, k)
    requires k + 1 < |bands| && bands[k + 1].from <= CeilTo(raw, bands[k].value) &&
      RoundsUpAt(bands, bands[k + 1].from - 1)
    ensures RoundsUpAt(bands, raw)
  {
    var t, end := bands[k].value, bands[k + 1].from - 1;
    var price := CeilTo(raw, t);
    EndInBand(bands, raw, k);
    BandOf(bands, raw, k);
    CeilToLeast(raw, t, CeilTo(end, t));
    CeilToLeast(end, t, price);
    forall p | Quotable(bands, p) && raw <= p ensures price <= p {
      BeyondOrMultiple(bands, raw, k, p);
      CeilToLeast(raw, t, p);
    }
  }

  /** Rounding up is right at every price if and only if it is right at the last price before every further band. */
  lemma RoundsUpExactly(bands: seq<Step<int>>)
    requires ValidBands(bands)
    ensures (forall raw | raw >= 0 :: RoundsUpAt(bands, raw)) <==> EndsRoundUp(bands)
  {
    if EndsRoundUp(bands) {
      forall raw | raw >= 0 ensures RoundsUpAt(bands, raw) {
        var k := SomeBand(bands, raw);
        if k + 1 < |bands| && bands[k + 1].from <= CeilTo(raw, bands[k].value) {
          UpBeyondBand(bands, raw, k);
        } else {
          UpInsideBand(bands, raw, k);
        }
      }
    }
    forall k | 0 < k < |bands| ensures bands[k].from - 1 >= 0 {
      assert bands[0].from < bands[k].from;
    }
  }

  // ----- bands on the grid -----

  lemma StartIsQuotable(bands: seq<Step<int>>, k: nat)
    requires OnGridBands(bands) && k < |bands|
    ensures Quotable(bands, bands[k].from) && RoundsDownAt(bands, bands[k].from)
  {
    assert StartsOnGrid(bands, k);
    StartInBand(bands, k);
    FloorToGreatest(bands[k].from, bands[k].value, bands[k].from);
  }

  lemma EndRoundsToStart(bands: seq<Step<int>>, k: nat)
    requires OnGridBands(bands) && 0 < k < |bands|
    ensures RoundsUpAt(bands, bands[k].from - 1)
  {
    var start, t := bands[k].from, bands[k - 1].value;
    assert bands[0].from < start && StartsOnGrid(bands, k);
    assert bands[k - 1].from < start;
    assert GreatestAtOf(bands, bands[k - 1].from, k - 1);
    StartInBand(bands, k - 1);
    EndInBand(bands, bands[k - 1].from, k - 1);
    StartIsQuotable(bands, k);
    CeilToLeast(start - 1, t, start);
    if CeilTo(start - 1, t) < start {
      UpInsideBand(bands, start - 1, k - 1);
    } else {
      forall p | Quotable(bands, p) && start - 1 <= p ensures start <= p {
        BeyondOrMultiple(bands, start - 1, k - 1, p);
        CeilToLeast(start - 1, t, p);
      }
    }
  }

  /** When band starts are divisible by their own and the preceding tick, rounding is right both ways at every price. */
  lemma OnGridRounds(bands: seq<Step<int>>)
    requires OnGridBands(bands)
    ensures StartsRoundDown(bands) && EndsRoundUp(bands)
    ensures forall raw | raw >= 0 :: RoundsDownAt(bands, raw) && RoundsUpAt(bands, raw)
  {
    forall k | 0 <= k < |bands| ensures RoundsDownAt(bands, bands[k].from) {
      StartIsQuotable(bands, k);
    }
    forall k | 0 < k < |bands| ensures RoundsUpAt(bands, bands[k].from - 1) {
      EndRoundsToStart(bands, k);
    }
    RoundsDownExactly(bands);
    RoundsUpExactly(bands);
  }

  // ----- the published tables -----

  const KOSPI_2016 := [Step(0, 1), Step(1000, 5), Step(5000, 10), Step(10000, 50), Step(50000, 100), Step(100000, 500),
    Step(500000, 1000)]
  const KOSDAQ_2016 := [Step(0, 1), Step(1000, 5), Step(5000, 10), Step(10000, 50), Step(50000, 100)]
  const UNIFIED_2023 := [Step(0, 1), Step(2000, 5), Step(5000, 10), Step(20000, 50), Step(50000, 100),
    Step(200000, 500), Step(500000, 1000)]

  lemma IsMultiple(x: int, t: int)
    requires t > 0 && x % t == 0
    ensures Multiple(x, t)
  {
    assert x == t * (x / t) + x % t;
    assert Times(x / t, t) == x;
  }

  /** A further band keeps the table on grid when its start is divisible by its own and the preceding tick. */
  lemma ExtendGrid(bands: seq<Step<int>>, from: int, tick: int)
    requires OnGridBands(bands) && bands[|bands| - 1].from < from && tick > 0
    requires from % tick == 0 && from % bands[|bands| - 1].value == 0
    ensures OnGridBands(bands + [Step(from, tick)])
  {
    var longer := bands + [Step(from, tick)];
    IsMultiple(from, tick);
    IsMultiple(from, bands[|bands| - 1].value);
    forall i | 0 <= i < |longer| ensures StartsOnGrid(longer, i) {
      assert i == |bands| || StartsOnGrid(bands, i);
    }
  }

  lemma FirstOnGrid()
    ensures OnGridBands([Step(0, 1)])
  {
    IsMultiple(0, 1);
  }

  lemma Kospi2016OnGrid()
    ensures OnGridBands(KOSPI_2016)
  {
    FirstOnGrid();
    var bands := [Step(0, 1)];
    ExtendGrid(bands, 1000, 5);
    bands := bands + [Step(1000, 5)];
    ExtendGrid(bands, 5000, 10);
    bands := bands + [Step(5000, 10)];
    ExtendGrid(bands, 10000, 50);
    bands := bands + [Step(10000, 50)];
    ExtendGrid(bands, 50000, 100);
    bands := bands + [Step(50000, 100)];
    ExtendGrid(bands, 100000, 500);
    bands := bands + [Step(100000, 500)];
    ExtendGrid(bands, 500000, 1000);
    bands := bands + [Step(500000, 1000)];
    assert bands == KOSPI_2016;
  }

  lemma Kosdaq2016OnGrid()
    ensures OnGridBands(KOSDAQ_2016)
  {
    FirstOnGrid();
    var bands := [Step(0, 1)];
    ExtendGrid(bands, 1000, 5);
    bands := bands + [Step(1000, 5)];
    ExtendGrid(bands, 5000, 10);
    bands := bands + [Step(5000, 10)];
    ExtendGrid(bands, 10000, 50);
    bands := bands + [Step(10000, 50)];
    ExtendGrid(bands, 50000, 100);
    bands := bands + [Step(50000, 100)];
    assert bands == KOSDAQ_2016;
  }

  lemma Unified2023OnGrid()
    ensures OnGridBands(UNIFIED_2023)
  {
    FirstOnGrid();
    var bands := [Step(0, 1)];
    ExtendGrid(bands, 2000, 5);
    bands := bands + [Step(2000, 5)];
    ExtendGrid(bands, 5000, 10);
    bands := bands + [Step(5000, 10)];
    ExtendGrid(bands, 20000, 50);
    bands := bands + [Step(20000, 50)];
    ExtendGrid(bands, 50000, 100);
    bands := bands + [Step(50000, 100)];
    ExtendGrid(bands, 200000, 500);
    bands := bands + [Step(200000, 500)];
    ExtendGrid(bands, 500000, 1000);
    bands := bands + [Step(500000, 1000)];
    assert bands == UNIFIED_2023;
  }

  /** All published tables are on grid, so the statements above hold of them. */
  lemma PublishedTablesOnGrid()
    ensures OnGridBands(KOSPI_2016) && OnGridBands(KOSDAQ_2016) && OnGridBands(UNIFIED_2023)
  {
    Kospi2016OnGrid();
    Kosdaq2016OnGrid();
    Unified2023OnGrid();
  }

  // ----- tables off the grid -----

  /** An accepted table off the grid can round wrongly: with a band starting at 7 under a tick of 5, the price 6 may be
      quoted but 7 is rounded down to 5. */
  lemma OffGridRoundsWrong()
    ensures var bands := [Step(0, 1), Step(7, 5)];
      ValidBands(bands) && BandTick(bands, 7) == 5 && FloorTo(7, 5) == 5 && Quotable(bands, 6) &&
        !StartsRoundDown(bands)
  {
    var bands := [Step(0, 1), Step(7, 5)];
    assert bands[..1] == [Step(0, 1)];
    assert InForce(bands[..1], 6) == Some(1);
    assert BandTick(bands, 6) == 1 && Times(6, 1) == 6;
    assert Quotable(bands, 6);
    assert 7 / 5 == 1 && Times(1, 5) == 5;
    assert !RoundsDownAt(bands, bands[1].from);
  }

  /** And can round rightly: with one tick in both bands, where the second starts does not matter. */
  lemma OffGridRoundsRight()
    ensures var bands := [Step(0, 5), Step(7, 5)];
      ValidBands(bands) && !OnGridBands(bands) && forall raw | raw >= 0 ::
        RoundsDownAt(bands, raw) && RoundsUpAt(bands, raw)
  {
    var bands := [Step(0, 5), Step(7, 5)];
    forall p ensures BandTick(bands, p) == 5 {
      InForceMeans(bands, p);
    }
    NotMultiple();
    assert !StartsOnGrid(bands, 1);
    forall raw | raw >= 0 ensures RoundsDownAt(bands, raw) && RoundsUpAt(bands, raw) {
      OneTickRounds(bands, 5, raw);
    }
  }

  lemma NotMultiple()
    ensures !Multiple(7, 5)
  {
    forall q ensures Times(q, 5) != 7 {
    }
  }

  lemma OneTickRounds(bands: seq<Step<int>>, t: int, raw: int)
    requires ValidBands(bands) && t > 0 && raw >= 0 && forall p :: BandTick(bands, p) == t
    ensures RoundsDownAt(bands, raw) && RoundsUpAt(bands, raw)
  {
    assert Times(0, t) == 0;
    FloorToGreatest(raw, t, 0);
    CeilToLeast(raw, t, raw);
    forall p | Quotable(bands, p) ensures (p <= raw ==> p <= FloorTo(raw, t)) && (raw <= p ==> CeilTo(raw, t) <= p) {
      FloorToGreatest(raw, t, p);
      CeilToLeast(raw, t, p);
    }
  }
}
