/** Where a synchronisation ends: inside the band everything is kept, and with enough funds every leg reaches its
    target. */
module SyncTargets {
  import opened Rounding
  import opened Overlay
  import opened FundingSearch
  import opened Accounts
  import opened SyncTheory

  /** Reserve of every target. */
  function TargetReserve(legs: seq<Leg>): int {
    if legs == [] then 0 else Reserve(legs[0].units, legs[0].target) + TargetReserve(legs[1..])
  }

  /** Commission of moving every leg to its target. */
  function TargetCost(a: Account, legs: seq<Leg>): int {
    if legs == [] then 0
    else Commission(legs[0].units.cost, legs[0].target - Held(a, legs[0])) + TargetCost(a, legs[1..])
  }

  lemma {:induction false} TargetsNonNegative(a: Account, legs: seq<Leg>)
    requires ValidLegs(legs)
    ensures 0 <= TargetReserve(legs) && 0 <= TargetCost(a, legs)
  {
    if legs != [] {
      assert legs[0] in legs;
      HeadName(legs);
      ReserveGrows(legs[0].units, 0, legs[0].target);
      CommissionNonNegative(legs[0].units.cost, legs[0].target - Held(a, legs[0]));
      TargetsNonNegative(a, legs[1..]);
    }
  }

  lemma {:induction false} TargetCostFrame(a: Account, b: Account, legs: seq<Leg>)
    requires SameHoldings(a, b, legs)
    ensures TargetCost(a, legs) == TargetCost(b, legs)
  {
    if legs != [] {
      assert legs[0] in legs;
      TargetCostFrame(a, b, legs[1..]);
    }
  }

  /** A leg that can afford its target takes it. */
  lemma ChoosesTarget(l: Leg, prior: int, remaining: int, inBand: bool)
    requires l.units.Consistent()
    requires Reserve(l.units, l.target) + Commission(l.units.cost, l.target - prior) <= remaining
    ensures Choose(l, prior, remaining, inBand) == l.target
  {
    LargestFundableIsMaximal(l.units, l.target, prior, remaining);
    var k := LargestFundable(l.units, l.target, prior, remaining);
    assert Fundable(l.units, l.target, prior, remaining);
    if Abs(k) < Abs(l.target) {
      assert Between(l.target, l.target);
    }
  }

  /** With funds for every reserve and commission, funding brings every leg to its target. */
  lemma {:induction false} FundReaches(a: Account, s: int, legs: seq<Leg>, remaining: int, inBand: bool)
    requires ValidLegs(legs) && TargetReserve(legs) + TargetCost(a, legs) <= remaining
    ensures AllAtTarget(FundLegs(a, s, legs, remaining, inBand), legs)
    decreases |legs|
  {
    if legs != [] {
      var l, rest := legs[0], legs[1..];
      assert l in legs;
      HeadName(legs);
      TargetsNonNegative(a, rest);
      ChoosesTarget(l, Held(a, l), remaining, inBand);
      var a1 := FundHead(a, s, l, remaining, inBand);
      FundHeadMoves(a, s, legs, remaining, inBand);
      HeadSettled(a, s, legs, remaining, inBand);
      TargetCostFrame(a, a1, rest);
      FundReaches(a1, s, rest, Left(a, l, remaining, inBand), inBand);
    }
  }

  lemma {:induction false} AtTargetSums(a: Account, b: Account, legs: seq<Leg>)
    requires AllAtTarget(b, legs)
    ensures SumReserve(b, legs) == TargetReserve(legs) && SumCost(a, b, legs) == TargetCost(a, legs)
  {
    if legs != [] {
      assert legs[0] in legs;
      AtTargetSums(a, b, legs[1..]);
    }
  }

  /** With funds for every reserve and commission, every leg ends at its target; unless everything stood there inside
      the band already, the pool ends at the reserve of the targets. */
  lemma SyncReaches(a: Account, s: int, legs: seq<Leg>)
    requires ValidLegs(legs) && TargetReserve(legs) + TargetCost(a, legs) <= a.margin + SpendableCash(a)
    ensures AllAtTarget(Sync(a, s, legs), legs)
    ensures !Holds(a, legs) ==> Sync(a, s, legs).margin == TargetReserve(legs)
  {
    var b := Sync(a, s, legs);
    if Holds(a, legs) {
      HeldStays(a, s, legs);
    } else {
      FundReaches(a, s, legs, a.margin + SpendableCash(a), InBand(a, legs));
      FundedHoldings(a, s, legs);
      AllStayAtTarget(FundLegs(a, s, legs, a.margin + SpendableCash(a), InBand(a, legs)), b, legs);
      AtTargetSums(a, b, legs);
      SyncFundedExactly(a, s, legs);
    }
  }

  lemma AllStayAtTarget(m: Account, b: Account, legs: seq<Leg>)
    requires AllAtTarget(m, legs) && SameHoldings(m, b, legs)
    ensures AllAtTarget(b, legs)
  {
    forall l | l in legs ensures l.target == Held(b, l) {
      assert Held(m, l) == Held(b, l);
    }
  }

  /** Legs at target inside the band are kept, and only margin above the reserve is released. */
  lemma HeldStays(a: Account, s: int, legs: seq<Leg>)
    requires Holds(a, legs)
    ensures AllAtTarget(Sync(a, s, legs), legs)
    ensures Sync(a, s, legs).margin == if SumReserve(a, legs) < a.margin then SumReserve(a, legs) else a.margin
  {
    SyncWhenHolding(a, s, legs);
  }

  // ----- the greedy choice, leg by leg -----

  /** Reserves and commissions of the first `n` legs. */
  function Spent(a: Account, b: Account, legs: seq<Leg>, n: nat): int
    requires n <= |legs|
    decreases n
  {
    if n == 0 then 0
    else
      var l := legs[0];
      Reserve(l.units, Held(b, l)) + Commission(l.units.cost, Held(b, l) - Held(a, l)) + Spent(a, b, legs[1..], n - 1)
  }

  /** From `prior`, with `left` to spend: a leg at target inside the band is kept; any other takes a count between flat
      and target that fits, or none, and every larger count does not fit. */
  ghost predicate GreedyFrom(l: Leg, prior: int, k: int, left: int, inBand: bool) {
    if inBand && l.target == prior then k == prior
    else
      && Between(k, l.target)
      && (k == 0 || Reserve(l.units, k) + Commission(l.units.cost, k - prior) <= left)
      && forall j {:trigger Between(j, l.target)} | Between(j, l.target) && Abs(k) < Abs(j) ::
           left < Reserve(l.units, j) + Commission(l.units.cost, j - prior)
  }

  lemma ChoiceIsGreedy(l: Leg, prior: int, left: int, inBand: bool)
    ensures GreedyFrom(l, prior, Choose(l, prior, left, inBand), left, inBand)
  {
    LargestFundableIsMaximal(l.units, l.target, prior, left);
    var k := Choose(l, prior, left, inBand);
    if !(inBand && l.target == prior) {
      forall j | Between(j, l.target) && Abs(k) < Abs(j)
        ensures left < Reserve(l.units, j) + Commission(l.units.cost, j - prior)
      {
        assert !Fundable(l.units, j, prior, left);
      }
    }
  }

  lemma {:induction false} SpentFrame(a: Account, a': Account, b: Account, b': Account, legs: seq<Leg>, n: nat)
    requires n <= |legs| && SameHoldings(a, a', legs) && SameHoldings(b, b', legs)
    ensures Spent(a, b, legs, n) == Spent(a', b', legs, n)
    decreases n
  {
    if n != 0 {
      assert legs[0] in legs;
      SpentFrame(a, a', b, b', legs[1..], n - 1);
    }
  }

  /** What the first leg spends comes first. */
  lemma SpentStep(a: Account, s: int, legs: seq<Leg>, remaining: int, inBand: bool, n: nat)
    requires ValidLegs(legs) && 0 < n < |legs|
    ensures var a1, b := FundHead(a, s, legs[0], remaining, inBand), FundLegs(a, s, legs, remaining, inBand);
      && remaining - Spent(a, b, legs, n) == Left(a, legs[0], remaining, inBand) - Spent(a1, b, legs[1..], n - 1)
      && Held(a1, legs[n]) == Held(a, legs[n])
      && b == FundLegs(a1, s, legs[1..], Left(a, legs[0], remaining, inBand), inBand)
  {
    var a1, b := FundHead(a, s, legs[0], remaining, inBand), FundLegs(a, s, legs, remaining, inBand);
    FundHeadMoves(a, s, legs, remaining, inBand);
    HeadSettled(a, s, legs, remaining, inBand);
    SpentFrame(a, a1, b, b, legs[1..], n - 1);
    assert legs[n] == legs[1..][n - 1] && legs[n] in legs[1..];
  }

  /** Leg `n` ends where its greedy choice puts it, out of what the legs before it left of `available`. */
  ghost predicate ChosenAt(a: Account, b: Account, legs: seq<Leg>, n: nat, available: int, inBand: bool)
    requires n < |legs|
  {
    GreedyFrom(legs[n], Held(a, legs[n]), Held(b, legs[n]), available - Spent(a, b, legs, n), inBand)
  }

  lemma HeadChosen(a: Account, s: int, legs: seq<Leg>, remaining: int, inBand: bool)
    requires ValidLegs(legs) && legs != []
    ensures ChosenAt(a, FundLegs(a, s, legs, remaining, inBand), legs, 0, remaining, inBand)
  {
    HeadSettled(a, s, legs, remaining, inBand);
    ChoiceIsGreedy(legs[0], Held(a, legs[0]), remaining, inBand);
  }

  lemma TailChosen(a: Account, a1: Account, b: Account, legs: seq<Leg>, n: nat, available: int, left: int, inBand: bool)
    requires 0 < n < |legs| && ChosenAt(a1, b, legs[1..], n - 1, left, inBand)
    requires Held(a1, legs[n]) == Held(a, legs[n])
    requires available - Spent(a, b, legs, n) == left - Spent(a1, b, legs[1..], n - 1)
    ensures ChosenAt(a, b, legs, n, available, inBand)
  {
    assert legs[1..][n - 1] == legs[n];
  }

  lemma {:induction false} FundGreedy(a: Account, s: int, legs: seq<Leg>, remaining: int, inBand: bool, n: nat)
    requires ValidLegs(legs) && n < |legs|
    ensures ChosenAt(a, FundLegs(a, s, legs, remaining, inBand), legs, n, remaining, inBand)
    decreases |legs|
  {
    if n == 0 {
      HeadChosen(a, s, legs, remaining, inBand);
    } else {
      var a1, left := FundHead(a, s, legs[0], remaining, inBand), Left(a, legs[0], remaining, inBand);
      HeadName(legs);
      SpentStep(a, s, legs, remaining, inBand, n);
      FundGreedy(a1, s, legs[1..], left, inBand, n - 1);
      TailChosen(a, a1, FundLegs(a, s, legs, remaining, inBand), legs, n, remaining, left, inBand);
    }
  }

  lemma FundedHoldings(a: Account, s: int, legs: seq<Leg>)
    requires ValidLegs(legs) && !Holds(a, legs)
    ensures SameHoldings(FundLegs(a, s, legs, a.margin + SpendableCash(a), InBand(a, legs)), Sync(a, s, legs), legs)
  {
    SyncOutcome(a, s, legs);
  }

  lemma SameChosen(a: Account, m: Account, b: Account, legs: seq<Leg>, n: nat, available: int, inBand: bool)
    requires n < |legs| && SameHoldings(m, b, legs) && ChosenAt(a, m, legs, n, available, inBand)
    ensures ChosenAt(a, b, legs, n, available, inBand)
  {
    SpentFrame(a, a, m, b, legs, n);
    assert legs[n] in legs;
  }

  /** A synchronisation that does not merely hold chooses every leg greedily out of margin and spendable cash. */
  lemma SyncGreedy(a: Account, s: int, legs: seq<Leg>, n: nat)
    requires ValidLegs(legs) && n < |legs| && !Holds(a, legs)
    ensures ChosenAt(a, Sync(a, s, legs), legs, n, a.margin + SpendableCash(a), InBand(a, legs))
  {
    var available := a.margin + SpendableCash(a);
    FundGreedy(a, s, legs, available, InBand(a, legs), n);
    FundedHoldings(a, s, legs);
    SameChosen(a, FundLegs(a, s, legs, available, InBand(a, legs)), Sync(a, s, legs), legs, n, available,
      InBand(a, legs));
  }
}
