/** Daily variation margin telescopes: settled amounts add up to marks, with no rounding drift. */
module Variation {
  import opened Rounding
  import opened Overlay
  import opened Accounts

  /** A leg over consecutive sessions: `levels[t]` at close t, `held[t]` contracts carried from close t to
      close t + 1. */
  ghost predicate Track(levels: seq<real>, held: seq<int>) {
    |levels| == |held| + 1
  }

  /** Sum of the daily settlements. */
  function Settled(levels: seq<real>, held: seq<int>, multiplier: int): int
    requires Track(levels, held)
  {
    if held == [] then 0
    else
      var n := |held| - 1;
      Settled(levels[..n + 1], held[..n], multiplier) +
      (FlooredMark(held[n], multiplier, levels[n + 1]) - FlooredMark(held[n], multiplier, levels[n]))
  }

  /** Marks exchanged at the closes where the position changed. */
  function Rebooked(levels: seq<real>, held: seq<int>, multiplier: int): int
    requires Track(levels, held)
  {
    if |held| <= 1 then 0
    else
      var n := |held| - 1;
      Rebooked(levels[..n + 1], held[..n], multiplier) +
      (FlooredMark(held[n], multiplier, levels[n]) - FlooredMark(held[n - 1], multiplier, levels[n]))
  }

  /** Over any run with trades at the close, the settlements add up to the closing mark less the opening
      mark and less the marks exchanged by trades. */
  lemma {:induction false} SettledIsMarkChange(levels: seq<real>, held: seq<int>, multiplier: int)
    requires Track(levels, held) && held != []
    ensures var n := |held|;
      Settled(levels, held, multiplier) ==
      FlooredMark(held[n - 1], multiplier, levels[n]) - FlooredMark(held[0], multiplier, levels[0]) -
      Rebooked(levels, held, multiplier)
    decreases |held|
  {
    var n := |held| - 1;
    if n == 0 {
      assert Settled(levels[..1], held[..0], multiplier) == 0;
    } else {
      SettledIsMarkChange(levels[..n + 1], held[..n], multiplier);
    }
  }

  lemma {:induction false} NothingRebooked(levels: seq<real>, held: seq<int>, multiplier: int, k: int)
    requires Track(levels, held) && forall t | 0 <= t < |held| :: held[t] == k
    ensures Rebooked(levels, held, multiplier) == 0
    decreases |held|
  {
    if |held| > 1 {
      NothingRebooked(levels[..|held|], held[..|held| - 1], multiplier, k);
    }
  }

  /** With an unchanged position only the end marks remain. */
  lemma SettledTelescopes(levels: seq<real>, held: seq<int>, multiplier: int, k: int)
    requires Track(levels, held) && held != [] && forall t | 0 <= t < |held| :: held[t] == k
    ensures Settled(levels, held, multiplier) ==
      FlooredMark(k, multiplier, levels[|held|]) - FlooredMark(k, multiplier, levels[0])
  {
    SettledIsMarkChange(levels, held, multiplier);
    NothingRebooked(levels, held, multiplier, k);
  }

  // ----- how far settlements are from exact profit -----

  function ExactMark(k: int, multiplier: int, level: real): real {
    -((k * multiplier) as real * level)
  }

  /** What flooring a mark drops: at least nothing, less than one KRW. */
  function Dropped(k: int, multiplier: int, level: real): (d: real)
    ensures 0.0 <= d < 1.0
  {
    ExactMark(k, multiplier, level) - FlooredMark(k, multiplier, level) as real
  }

  /** Profit of the positions without any rounding. */
  function Profit(levels: seq<real>, held: seq<int>, multiplier: int): real
    requires Track(levels, held)
  {
    if held == [] then 0.0
    else
      var n := |held| - 1;
      Profit(levels[..n + 1], held[..n], multiplier) +
      (ExactMark(held[n], multiplier, levels[n + 1]) - ExactMark(held[n], multiplier, levels[n]))
  }

  /** How many times a position was taken and then kept for one or more days. */
  function Segments(held: seq<int>): nat {
    if held == [] then 0
    else
      var n := |held| - 1;
      Segments(held[..n]) + (if n == 0 || held[n] != held[n - 1] then 1 else 0)
  }

  /** Settled less exact, with what the last mark dropped added back: only a change of position moves it. */
  lemma {:induction false} DriftBySegment(levels: seq<real>, held: seq<int>, multiplier: int)
    requires Track(levels, held) && held != []
    ensures var n, segments := |held|, Segments(held) as real;
      var drift := Settled(levels, held, multiplier) as real - Profit(levels, held, multiplier);
      1.0 - segments <= drift + Dropped(held[n - 1], multiplier, levels[n]) < segments
    decreases |held|
  {
    var n := |held| - 1;
    if n == 0 {
      assert Settled(levels[..1], held[..0], multiplier) == 0 && Profit(levels[..1], held[..0], multiplier) == 0.0;
      assert Segments(held[..0]) == 0;
    } else {
      DriftBySegment(levels[..n + 1], held[..n], multiplier);
      var d, d' := Dropped(held[n - 1], multiplier, levels[n]), Dropped(held[n], multiplier, levels[n]);
    }
  }

  /** Settlements differ from exact profit by less than one KRW per segment, whatever the number of days. */
  lemma SettledNearProfit(levels: seq<real>, held: seq<int>, multiplier: int)
    requires Track(levels, held) && held != []
    ensures var drift := Settled(levels, held, multiplier) as real - Profit(levels, held, multiplier);
      -(Segments(held) as real) < drift < Segments(held) as real
  {
    DriftBySegment(levels, held, multiplier);
    var d := Dropped(held[|held| - 1], multiplier, levels[|held|]);
  }

  // ----- the same on the ledger -----

  /** From an account holding `held[0]` in `leg`: each session settles the variation, then trades to the next
      position at the new level. */
  function RunLeg(a: Account, levels: seq<real>, held: seq<int>, multiplier: int, rate: real, leg: string): Account
    requires Track(levels, held)
  {
    if held == [] then a
    else
      var n := |held| - 1;
      var before := RunLeg(a, levels[..n + 1], held[..n], multiplier, rate, leg);
      var positioned := FuturesTraded(before, n, held[n], CostUnit(rate, multiplier, levels[n]), leg);
      VariationSettled(positioned, n + 1, levels[n], levels[n + 1], multiplier, leg)
  }

  function Commissions(from: int, levels: seq<real>, held: seq<int>, multiplier: int, rate: real): int
    requires Track(levels, held)
  {
    if held == [] then 0
    else
      var n := |held| - 1;
      Commissions(from, levels[..n + 1], held[..n], multiplier, rate) +
      Commission(CostUnit(rate, multiplier, levels[n]), held[n] - (if n == 0 then from else held[n - 1]))
  }

  /** The margin account pays exactly the commissions and receives exactly the telescoped marks. */
  lemma {:induction false} RunLegMargin(a: Account, levels: seq<real>, held: seq<int>, multiplier: int, rate: real,
      leg: string)
    requires Track(levels, held) && 0.0 <= rate && 0 < multiplier && forall t | 0 <= t < |levels| :: 0.0 < levels[t]
    ensures var b := RunLeg(a, levels, held, multiplier, rate, leg);
      && b.margin == a.margin + Settled(levels, held, multiplier) - Commissions(LegContracts(a, leg), levels, held, multiplier, rate)
      && b.ytdFuturesPnl == a.ytdFuturesPnl + Settled(levels, held, multiplier)
      && LegContracts(b, leg) == (if held == [] then LegContracts(a, leg) else held[|held| - 1])
      && b.cash == a.cash
    decreases |held|
  {
    if held != [] {
      var n := |held| - 1;
      RunLegMargin(a, levels[..n + 1], held[..n], multiplier, rate, leg);
      var before := RunLeg(a, levels[..n + 1], held[..n], multiplier, rate, leg);
      UnitNonNegative(rate, multiplier, levels[n]);
      TradeThenSettle(before, n, held[n], CostUnit(rate, multiplier, levels[n]), levels[n], levels[n + 1], multiplier,
        leg);
    }
  }

  lemma UnitNonNegative(rate: real, multiplier: int, level: real)
    requires 0.0 <= rate && 0 < multiplier && 0.0 < level
    ensures 0.0 <= CostUnit(rate, multiplier, level)
  {
    MulNonNegative(rate, multiplier as real);
    MulNonNegative(rate * multiplier as real, level);
  }

  lemma TradeThenSettle(a: Account, s: int, k: int, unit: real, prev: real, level: real, multiplier: int, leg: string)
    requires 0.0 <= unit
    ensures var b := VariationSettled(FuturesTraded(a, s, k, unit, leg), s + 1, prev, level, multiplier, leg);
      && b.margin == a.margin - Commission(unit, k - LegContracts(a, leg)) +
          (FlooredMark(k, multiplier, level) - FlooredMark(k, multiplier, prev))
      && b.ytdFuturesPnl == a.ytdFuturesPnl + (FlooredMark(k, multiplier, level) - FlooredMark(k, multiplier, prev))
      && LegContracts(b, leg) == k && b.cash == a.cash
  {
    CommissionNonNegative(unit, k - LegContracts(a, leg));
    var p := FuturesTraded(a, s, k, unit, leg);
    assert LegContracts(p, leg) == k;
    FlatMark(multiplier, level);
    FlatMark(multiplier, prev);
  }

  lemma FlatMark(multiplier: int, level: real)
    ensures FlooredMark(0, multiplier, level) == 0
  {
    assert 0 * multiplier == 0;
  }
}
