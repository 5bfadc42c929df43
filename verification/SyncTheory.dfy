/** Trading every futures leg toward its target out of one pooled margin: the rule as a function of
    the account, with its funding, conservation and idempotence laws. */
module SyncTheory {
  import opened Rounding
  import opened Overlay
  import opened FundingSearch
  import opened Accounts

  /** A leg at the current level: what one contract of it needs, and the pending target. */
  datatype Leg = Leg(name: string, units: Units, target: int)

  ghost predicate ValidLegs(legs: seq<Leg>) {
    && (forall l | l in legs :: l.units.Consistent())
    && (forall i, j | 0 <= i < j < |legs| :: legs[i].name != legs[j].name)
  }

  function Held(a: Account, l: Leg): int {
    LegContracts(a, l.name)
  }

  function SumReserve(a: Account, legs: seq<Leg>): int {
    if legs == [] then 0 else Reserve(legs[0].units, Held(a, legs[0])) + SumReserve(a, legs[1..])
  }

  function SumFloor(a: Account, legs: seq<Leg>): int {
    if legs == [] then 0 else MaintenanceFloor(legs[0].units, Held(a, legs[0])) + SumFloor(a, legs[1..])
  }

  predicate AllAtTarget(a: Account, legs: seq<Leg>) {
    forall l | l in legs :: l.target == Held(a, l)
  }

  predicate InBand(a: Account, legs: seq<Leg>) {
    SumFloor(a, legs) <= a.margin
  }

  /** The contracts a leg takes: inside the band a leg at its target stays, any other leg takes the
      largest affordable count toward its target. */
  function Choose(l: Leg, prior: int, remaining: int, inBand: bool): int {
    if inBand && l.target == prior then prior else LargestFundable(l.units, l.target, prior, remaining)
  }

  /** Reserve plus commission that a leg takes out of what earlier legs left. */
  function Charge(l: Leg, prior: int, chosen: int): int {
    Reserve(l.units, chosen) + Commission(l.units.cost, chosen - prior)
  }

  function FundLegs(a: Account, s: int, legs: seq<Leg>, remaining: int, inBand: bool): Account
    decreases |legs|
  {
    if legs == [] then a
    else
      var l := legs[0];
      var prior := Held(a, l);
      var k := Choose(l, prior, remaining, inBand);
      FundLegs(FuturesTraded(a, s, k, l.units.cost, l.name), s, legs[1..], remaining - Charge(l, prior, k), inBand)
  }

  /** The account after funding, before the margin moves. */
  function Funded(a: Account, s: int, legs: seq<Leg>): Account {
    FundLegs(a, s, legs, a.margin + SpendableCash(a), InBand(a, legs))
  }

  /** Bring the pooled margin to the summed reserve as far as spendable cash allows. */
  function SyncMargin(b: Account, s: int, legs: seq<Leg>): Account {
    var need := SumReserve(b, legs) - b.margin;
    if need > 0 then MarginTransferred(b, s, Min(need, SpendableCash(b)))
    else MarginTransferred(b, s, need)
  }

  predicate Holds(a: Account, legs: seq<Leg>) {
    InBand(a, legs) && AllAtTarget(a, legs)
  }

  function Sync(a: Account, s: int, legs: seq<Leg>): Account {
    if Holds(a, legs) then
      if SumReserve(a, legs) < a.margin then MarginTransferred(a, s, SumReserve(a, legs) - a.margin) else a
    else
      SyncMargin(Funded(a, s, legs), s, legs)
  }

  lemma SyncWhenHolding(a: Account, s: int, legs: seq<Leg>)
    requires Holds(a, legs)
    ensures Sync(a, s, legs)
         == if SumReserve(a, legs) < a.margin then MarginTransferred(a, s, SumReserve(a, legs) - a.margin) else a
  {
  }

  lemma SyncWhenTrading(a: Account, s: int, legs: seq<Leg>)
    requires !Holds(a, legs)
    ensures Sync(a, s, legs)
         == SyncMargin(FundLegs(a, s, legs, a.margin + SpendableCash(a), InBand(a, legs)), s, legs)
  {
  }

  // ----- what funding the legs does -----

  /** Commissions paid on the way from the holdings of `a` to those of `b`. */
  function SumCost(a: Account, b: Account, legs: seq<Leg>): int {
    if legs == [] then 0
    else Commission(legs[0].units.cost, Held(b, legs[0]) - Held(a, legs[0])) + SumCost(a, b, legs[1..])
  }

  ghost predicate SameHoldings(a: Account, b: Account, legs: seq<Leg>) {
    forall l | l in legs :: Held(a, l) == Held(b, l)
  }

  lemma {:induction false} SumsFrame(a: Account, b: Account, legs: seq<Leg>)
    requires SameHoldings(a, b, legs)
    ensures SumReserve(a, legs) == SumReserve(b, legs)
    ensures SumFloor(a, legs) == SumFloor(b, legs)
  {
    if legs != [] {
      assert legs[0] in legs;
      SumsFrame(a, b, legs[1..]);
    }
  }

  lemma {:induction false} SumCostFrame(a: Account, a': Account, b: Account, legs: seq<Leg>)
    requires SameHoldings(a, a', legs)
    ensures SumCost(a, b, legs) == SumCost(a', b, legs)
  {
    if legs != [] {
      assert legs[0] in legs;
      SumCostFrame(a, a', b, legs[1..]);
    }
  }

  lemma {:induction false} SumCostNonNegative(a: Account, b: Account, legs: seq<Leg>)
    requires ValidLegs(legs)
    ensures 0 <= SumCost(a, b, legs)
  {
    if legs != [] {
      CommissionNonNegative(legs[0].units.cost, Held(b, legs[0]) - Held(a, legs[0]));
      SumCostNonNegative(a, b, legs[1..]);
    }
  }

  /** One trade: only the traded leg, the margin and the journal move, and the margin falls by the commission. */
  lemma TradeMoves(a: Account, s: int, k: int, unit: real, leg: string)
    requires 0.0 <= unit
    ensures var b := FuturesTraded(a, s, k, unit, leg);
      && b == a.(contracts := b.contracts, secondary := b.secondary, margin := b.margin, journal := b.journal)
      && b.margin == a.margin - Commission(unit, k - LegContracts(a, leg))
      && (forall other: string :: LegContracts(b, other) == if other == leg then k else LegContracts(a, other))
  {
    CommissionNonNegative(unit, k - LegContracts(a, leg));
  }

  function Names(legs: seq<Leg>): set<string> {
    set l | l in legs :: l.name
  }

  /** From `a` to `b` only the named legs, the margin and the journal moved. */
  ghost predicate OnlyLegsMoved(a: Account, b: Account, names: set<string>) {
    && b == a.(contracts := b.contracts, secondary := b.secondary, margin := b.margin, journal := b.journal)
    && forall name: string | name !in names :: LegContracts(b, name) == LegContracts(a, name)
  }

  lemma HeadName(legs: seq<Leg>)
    requires ValidLegs(legs) && legs != []
    ensures ValidLegs(legs[1..])
    ensures legs[0].name !in Names(legs[1..])
    ensures Names(legs) == {legs[0].name} + Names(legs[1..])
  {
    forall l | l in legs ensures l.name in {legs[0].name} + Names(legs[1..]) {
      assert l == legs[0] || l in legs[1..];
    }
  }

  /** The account after the first leg, and what the rest starts from. */
  function FundHead(a: Account, s: int, l: Leg, remaining: int, inBand: bool): Account {
    FuturesTraded(a, s, Choose(l, Held(a, l), remaining, inBand), l.units.cost, l.name)
  }

  function Left(a: Account, l: Leg, remaining: int, inBand: bool): int {
    remaining - Charge(l, Held(a, l), Choose(l, Held(a, l), remaining, inBand))
  }

  lemma FundOneStep(a: Account, s: int, legs: seq<Leg>, remaining: int, inBand: bool)
    requires legs != []
    ensures FundLegs(a, s, legs, remaining, inBand)
         == FundLegs(FundHead(a, s, legs[0], remaining, inBand), s, legs[1..],
              Left(a, legs[0], remaining, inBand), inBand)
  {
  }

  lemma FundHeadMoves(a: Account, s: int, legs: seq<Leg>, remaining: int, inBand: bool)
    requires ValidLegs(legs) && legs != []
    ensures var l := legs[0];
      var a1 := FundHead(a, s, l, remaining, inBand);
      && OnlyLegsMoved(a, a1, {l.name})
      && Held(a1, l) == Choose(l, Held(a, l), remaining, inBand)
      && a1.margin == a.margin - Commission(l.units.cost, Held(a1, l) - Held(a, l))
      && SameHoldings(a, a1, legs[1..])
      && FundLegs(a, s, legs, remaining, inBand) == FundLegs(a1, s, legs[1..], Left(a, l, remaining, inBand), inBand)
  {
    var l := legs[0];
    HeadName(legs);
    TradeMoves(a, s, Choose(l, Held(a, l), remaining, inBand), l.units.cost, l.name);
  }

  lemma {:induction false} FundFrame(a: Account, s: int, legs: seq<Leg>, remaining: int, inBand: bool)
    requires ValidLegs(legs)
    ensures OnlyLegsMoved(a, FundLegs(a, s, legs, remaining, inBand), Names(legs))
    decreases |legs|
  {
    if legs != [] {
      HeadName(legs);
      FundHeadMoves(a, s, legs, remaining, inBand);
      FundFrame(FundHead(a, s, legs[0], remaining, inBand), s, legs[1..], Left(a, legs[0], remaining, inBand), inBand);
    }
  }

  /** What the first leg took is still what it holds at the end. */
  lemma HeadSettled(a: Account, s: int, legs: seq<Leg>, remaining: int, inBand: bool)
    requires ValidLegs(legs) && legs != []
    ensures var b := FundLegs(a, s, legs, remaining, inBand);
      Held(b, legs[0]) == Choose(legs[0], Held(a, legs[0]), remaining, inBand)
  {
    HeadName(legs);
    FundHeadMoves(a, s, legs, remaining, inBand);
    FundFrame(FundHead(a, s, legs[0], remaining, inBand), s, legs[1..], Left(a, legs[0], remaining, inBand), inBand);
  }

  /** Funding costs exactly its commissions. */
  lemma {:induction false} FundMargin(a: Account, s: int, legs: seq<Leg>, remaining: int, inBand: bool)
    requires ValidLegs(legs)
    ensures var b := FundLegs(a, s, legs, remaining, inBand); b.margin == a.margin - SumCost(a, b, legs)
    decreases |legs|
  {
    if legs != [] {
      HeadName(legs);
      var a1, b := FundHead(a, s, legs[0], remaining, inBand), FundLegs(a, s, legs, remaining, inBand);
      FundMargin(a1, s, legs[1..], Left(a, legs[0], remaining, inBand), inBand);
      HeadMargin(a, s, legs, remaining, inBand);
      assert SumCost(a, b, legs) ==
        Commission(legs[0].units.cost, Held(b, legs[0]) - Held(a, legs[0])) + SumCost(a, b, legs[1..]);
    }
  }

  /** The first leg pays its own commission, and the rest pay the same from the account it leaves. */
  lemma HeadMargin(a: Account, s: int, legs: seq<Leg>, remaining: int, inBand: bool)
    requires ValidLegs(legs) && legs != []
    ensures var a1, b := FundHead(a, s, legs[0], remaining, inBand), FundLegs(a, s, legs, remaining, inBand);
      && b == FundLegs(a1, s, legs[1..], Left(a, legs[0], remaining, inBand), inBand)
      && a1.margin == a.margin - Commission(legs[0].units.cost, Held(b, legs[0]) - Held(a, legs[0]))
      && SumCost(a1, b, legs[1..]) == SumCost(a, b, legs[1..])
  {
    FundHeadMoves(a, s, legs, remaining, inBand);
    HeadSettled(a, s, legs, remaining, inBand);
    SumCostFrame(a, FundHead(a, s, legs[0], remaining, inBand), FundLegs(a, s, legs, remaining, inBand), legs[1..]);
  }

  /** Every leg ends between flat and its target. */
  lemma {:induction false} FundBetween(a: Account, s: int, legs: seq<Leg>, remaining: int, inBand: bool)
    requires ValidLegs(legs)
    ensures var b := FundLegs(a, s, legs, remaining, inBand); forall l | l in legs :: Between(Held(b, l), l.target)
    decreases |legs|
  {
    if legs != [] {
      HeadName(legs);
      FundHeadMoves(a, s, legs, remaining, inBand);
      HeadSettled(a, s, legs, remaining, inBand);
      FundBetween(FundHead(a, s, legs[0], remaining, inBand), s, legs[1..], Left(a, legs[0], remaining, inBand),
        inBand);
      LargestFundableIsMaximal(legs[0].units, legs[0].target, Held(a, legs[0]), remaining);
    }
  }

  // ----- the second pass -----

  /** Funding out of `remaining` inside the band would leave every leg where it is. */
  predicate Stays(b: Account, legs: seq<Leg>, remaining: int) {
    legs == [] ||
    (Choose(legs[0], Held(b, legs[0]), remaining, true) == Held(b, legs[0]) &&
     Stays(b, legs[1..], remaining - Reserve(legs[0].units, Held(b, legs[0]))))
  }

  /** A leg that took the largest affordable count `k` finds nothing larger affordable afterwards: the
      second hop from `k` costs at least what the direct move would have cost on top of the first hop. */
  lemma ChoiceIsFinal(u: Units, target: int, prior: int, remaining: int, later: int)
    requires u.Valid()
    requires var k := LargestFundable(u, target, prior, remaining);
      Reserve(u, k) <= later <= remaining - Commission(u.cost, k - prior)
    ensures var k := LargestFundable(u, target, prior, remaining);
      LargestFundable(u, target, k, later) == k
  {
    LargestFundableIsMaximal(u, target, prior, remaining);
    MaximalIsFinal(u, target, prior, remaining, later, LargestFundable(u, target, prior, remaining));
  }

  lemma MaximalIsFinal(u: Units, target: int, prior: int, remaining: int, later: int, k: int)
    requires u.Valid() && Reserve(u, k) <= later <= remaining - Commission(u.cost, k - prior) && Between(k, target)
    requires forall j | Between(j, target) && Abs(k) < Abs(j) :: !Fundable(u, j, prior, remaining)
    ensures LargestFundable(u, target, k, later) == k
  {
    CommissionNonNegative(u.cost, 0);
    assert Fundable(u, k, k, later);
    forall j | Between(j, target) && Abs(k) < Abs(j) ensures !Fundable(u, j, k, later) {
      assert !Fundable(u, j, prior, remaining);
      CommissionTriangle(u.cost, prior, k, j);
    }
    MaximalIsScan(u, target, k, later, k);
  }

  lemma HeadStays(l: Leg, prior: int, k: int, remaining: int, inBand: bool, later: int)
    requires l.units.Consistent() && k == Choose(l, prior, remaining, inBand)
    requires Reserve(l.units, k) <= later <= remaining - Commission(l.units.cost, k - prior)
    ensures Choose(l, k, later, true) == k
  {
    if l.target != k {
      ChoiceIsFinal(l.units, l.target, prior, remaining, later);
    }
  }

  lemma {:induction false} FundStays(a: Account, s: int, legs: seq<Leg>, remaining: int, inBand: bool, later: int)
    requires ValidLegs(legs)
    requires var b := FundLegs(a, s, legs, remaining, inBand);
      SumReserve(b, legs) <= later <= remaining - SumCost(a, b, legs)
    ensures Stays(FundLegs(a, s, legs, remaining, inBand), legs, later)
    decreases |legs|
  {
    if legs != [] {
      var l, b := legs[0], FundLegs(a, s, legs, remaining, inBand);
      var prior, k := Held(a, l), Choose(l, Held(a, l), remaining, inBand);
      var a1 := FundHead(a, s, l, remaining, inBand);
      HeadName(legs);
      FundHeadMoves(a, s, legs, remaining, inBand);
      HeadSettled(a, s, legs, remaining, inBand);
      SumCostFrame(a, a1, b, legs[1..]);
      SumCostNonNegative(a, b, legs[1..]);
      FundStays(a1, s, legs[1..], Left(a, l, remaining, inBand), inBand, later - Reserve(l.units, k));
      SumReserveNonNegative(b, legs[1..]);
      HeadStays(l, prior, k, remaining, inBand, later);
    }
  }

  lemma {:induction false} SumReserveNonNegative(b: Account, legs: seq<Leg>)
    requires ValidLegs(legs)
    ensures 0 <= SumFloor(b, legs) <= SumReserve(b, legs)
  {
    if legs != [] {
      HeadName(legs);
      FloorBelowReserve(legs[0].units, Held(b, legs[0]));
      SumReserveNonNegative(b, legs[1..]);
    }
  }

  /** Legs that stay book nothing. */
  lemma {:induction false} StaysBooksNothing(b: Account, s: int, legs: seq<Leg>, remaining: int)
    requires ValidLegs(legs) && Stays(b, legs, remaining)
    ensures FundLegs(b, s, legs, remaining, true) == b
    decreases |legs|
  {
    if legs != [] {
      HeadName(legs);
      CommissionNonNegative(legs[0].units.cost, 0);
      StaysBooksNothing(b, s, legs[1..], remaining - Reserve(legs[0].units, Held(b, legs[0])));
    }
  }

  // ----- laws of one synchronisation -----

  lemma TransferKeepsLegs(a: Account, s: int, amount: int, legs: seq<Leg>)
    ensures var b := MarginTransferred(a, s, amount);
      && OnlyLegsMoved(a.(cash := b.cash), b, {})
      && SumReserve(b, legs) == SumReserve(a, legs) && SumFloor(b, legs) == SumFloor(a, legs)
      && AllAtTarget(b, legs) == AllAtTarget(a, legs)
  {
    SumsFrame(a, MarginTransferred(a, s, amount), legs);
  }

  /** Moving margin: the amount that reaches the pool, and the cash it leaves. */
  lemma SyncMarginMoves(b: Account, s: int, legs: seq<Leg>)
    ensures var c := SyncMargin(b, s, legs);
      && c == b.(cash := c.cash, margin := c.margin, journal := c.journal)
      && c.cash + c.margin == b.cash + b.margin
      && Min(b.cash, b.taxPayable) <= c.cash
      && SumReserve(c, legs) == SumReserve(b, legs) && SumFloor(c, legs) == SumFloor(b, legs)
      && (c.margin == SumReserve(b, legs) <==> SumReserve(b, legs) <= b.margin + SpendableCash(b))
      && c.margin + SpendableCash(c) <= b.margin + SpendableCash(b)
      && c.margin <= Max(b.margin, SumReserve(b, legs))
  {
    var need := SumReserve(b, legs) - b.margin;
    TransferKeepsLegs(b, s, if need > 0 then Min(need, SpendableCash(b)) else need, legs);
  }

  lemma FundSpendable(a: Account, s: int, legs: seq<Leg>, remaining: int, inBand: bool)
    requires ValidLegs(legs)
    ensures var b := FundLegs(a, s, legs, remaining, inBand);
      && b.cash == a.cash && b.taxPayable == a.taxPayable && SpendableCash(b) == SpendableCash(a)
      && b.margin == a.margin - SumCost(a, b, legs)
  {
    FundFrame(a, s, legs, remaining, inBand);
    FundMargin(a, s, legs, remaining, inBand);
  }

  lemma {:induction false} SumCostAtRest(a: Account, b: Account, legs: seq<Leg>)
    requires ValidLegs(legs) && SameHoldings(a, b, legs)
    ensures SumCost(a, b, legs) == 0
  {
    if legs != [] {
      assert legs[0] in legs;
      CommissionNonNegative(legs[0].units.cost, 0);
      HeadName(legs);
      SumCostAtRest(a, b, legs[1..]);
    }
  }

  /** Everything later arguments need about the non-holding branch, in plain amounts. */
  ghost predicate Outcome(a: Account, m: Account, b: Account, legs: seq<Leg>) {
    && m.cash == a.cash && b.taxPayable == m.taxPayable == a.taxPayable
    && m.margin == a.margin - SumCost(a, b, legs)
    && SameHoldings(m, b, legs) && SumReserve(m, legs) == SumReserve(b, legs)
    && b.cash + b.margin == m.cash + m.margin
    && Min(a.cash, a.taxPayable) <= b.cash
    && (b.margin == SumReserve(b, legs) <==> SumReserve(b, legs) <= m.margin + SpendableCash(a))
    && b.margin + SpendableCash(b) <= m.margin + SpendableCash(a)
    && (forall name: string | name !in Names(legs) :: LegContracts(b, name) == LegContracts(a, name))
  }

  lemma MarginOutcome(a: Account, m: Account, s: int, legs: seq<Leg>)
    requires m.cash == a.cash && m.taxPayable == a.taxPayable && m.margin == a.margin - SumCost(a, m, legs)
    requires forall name: string | name !in Names(legs) :: LegContracts(m, name) == LegContracts(a, name)
    ensures Outcome(a, m, SyncMargin(m, s, legs), legs)
  {
    SyncMarginMoves(m, s, legs);
    SumCostEnds(a, m, SyncMargin(m, s, legs), legs);
  }

  lemma SyncOutcome(a: Account, s: int, legs: seq<Leg>)
    requires ValidLegs(legs) && !Holds(a, legs)
    ensures Outcome(a, Funded(a, s, legs), Sync(a, s, legs), legs)
  {
    var available := a.margin + SpendableCash(a);
    FundSpendable(a, s, legs, available, InBand(a, legs));
    FundFrame(a, s, legs, available, InBand(a, legs));
    MarginOutcome(a, Funded(a, s, legs), s, legs);
  }

  /** Cash and margin together fall by exactly the commissions; owed tax is never spent. */
  lemma SyncConserves(a: Account, s: int, legs: seq<Leg>)
    requires ValidLegs(legs)
    ensures var b := Sync(a, s, legs);
      && b.cash + b.margin == a.cash + a.margin - SumCost(a, b, legs)
      && Min(a.cash, a.taxPayable) <= b.cash
      && b.taxPayable == a.taxPayable
      && (forall name: string | name !in Names(legs) :: LegContracts(b, name) == LegContracts(a, name))
  {
    if Holds(a, legs) {
      TransferKeepsLegs(a, s, SumReserve(a, legs) - a.margin, legs);
      SumCostAtRest(a, Sync(a, s, legs), legs);
    } else {
      SyncOutcome(a, s, legs);
    }
  }

  lemma {:induction false} SumCostEnds(a: Account, b: Account, b': Account, legs: seq<Leg>)
    requires SameHoldings(b, b', legs)
    ensures SumCost(a, b, legs) == SumCost(a, b', legs)
  {
    if legs != [] {
      assert legs[0] in legs;
      SumCostEnds(a, b, b', legs[1..]);
    }
  }

  /** Every leg ends between flat and its target. */
  lemma SyncStaysInside(a: Account, s: int, legs: seq<Leg>)
    requires ValidLegs(legs)
    ensures var b := Sync(a, s, legs); forall l | l in legs :: Between(Held(b, l), l.target)
  {
    if !Holds(a, legs) {
      FundBetween(a, s, legs, a.margin + SpendableCash(a), InBand(a, legs));
    }
  }

  /** Outside the hold branch the pool ends at exactly the summed reserve if and only if margin plus
      spendable cash covered every reserve and every commission. */
  lemma SyncFundedExactly(a: Account, s: int, legs: seq<Leg>)
    requires ValidLegs(legs) && !Holds(a, legs)
    ensures var b := Sync(a, s, legs);
      b.margin == SumReserve(b, legs) <==>
      SumReserve(b, legs) + SumCost(a, b, legs) <= a.margin + SpendableCash(a)
  {
    SyncOutcome(a, s, legs);
  }

  /** Synchronising again books nothing, at whatever session: after a hold, and after any
      synchronisation that brought the pool to the summed reserve. */
  lemma SyncIdempotent(a: Account, s: int, s': int, legs: seq<Leg>)
    requires ValidLegs(legs)
    requires var b := Sync(a, s, legs); Holds(a, legs) || b.margin == SumReserve(b, legs)
    ensures var b := Sync(a, s, legs); Sync(b, s', legs) == b
  {
    var b := Sync(a, s, legs);
    SumReserveNonNegative(b, legs);
    if Holds(a, legs) {
      TransferKeepsLegs(a, s, SumReserve(a, legs) - a.margin, legs);
    } else if !Holds(b, legs) {
      SecondPassStays(a, s, legs);
      StaysBooksNothing(b, s', legs, b.margin + SpendableCash(b));
    }
  }

  lemma SecondPassStays(a: Account, s: int, legs: seq<Leg>)
    requires ValidLegs(legs) && !Holds(a, legs)
    requires var b := Sync(a, s, legs); b.margin == SumReserve(b, legs)
    ensures var b := Sync(a, s, legs); Stays(b, legs, b.margin + SpendableCash(b))
  {
    var m, b := Funded(a, s, legs), Sync(a, s, legs);
    SyncOutcome(a, s, legs);
    SumCostEnds(a, m, b, legs);
    FundStays(a, s, legs, a.margin + SpendableCash(a), InBand(a, legs), b.margin + SpendableCash(b));
    StaysFrame(m, b, legs, b.margin + SpendableCash(b));
  }

  lemma {:induction false} StaysFrame(a: Account, b: Account, legs: seq<Leg>, remaining: int)
    requires SameHoldings(a, b, legs) && Stays(a, legs, remaining)
    ensures Stays(b, legs, remaining)
  {
    if legs != [] {
      assert legs[0] in legs;
      StaysFrame(a, b, legs[1..], remaining - Reserve(legs[0].units, Held(b, legs[0])));
    }
  }
}
