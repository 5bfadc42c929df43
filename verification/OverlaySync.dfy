/** The engine's margin synchronisation on a ledger object. */
module OverlaySync {
  import opened Rounding
  import opened Overlay
  import opened FundingSearch
  import opened Sums
  import opened Accounts
  import opened Ledgers
  import opened NameOrder
  import opened SyncTheory
  import opened SyncFutures

  /** Terms and current level of one leg. */
  datatype Market = Market(config: DerivativeConfig, level: real)
  {
    ghost predicate Valid() {
      config.Valid() && 0.0 < level
    }

    function UnitsHere(): Units {
      UnitsOf(config, level, config.multiplier)
    }
  }

  /** One leg to synchronise: the engine's (name, terms, level, target) tuple. */
  datatype LegTerms = LegTerms(name: string, market: Market, target: int)
  {
    function ToLeg(): Leg {
      Leg(name, market.UnitsHere(), target)
    }
  }

  function ToLegs(terms: seq<LegTerms>): (legs: seq<Leg>)
    ensures |legs| == |terms| && forall n | 0 <= n < |terms| :: legs[n] == terms[n].ToLeg()
  {
    if terms == [] then [] else [terms[0].ToLeg()] + ToLegs(terms[1..])
  }

  function InstructionOf(target: int, primary: Market, legTargets: map<string, int>,
      legMarkets: map<string, Market>): Instruction {
    Instruction(target, primary.UnitsHere(), legTargets, map name | name in legMarkets :: legMarkets[name].UnitsHere())
  }

  // ----- amounts of one leg -----

  method LegReserve(t: LegTerms, k: int) returns (krw: int)
    requires t.market.Valid()
    ensures krw == Reserve(t.ToLeg().units, k)
  {
    var r := RequiredReserve(t.market.config, t.market.level, t.market.config.multiplier, k);
    krw := r.value;
  }

  method LegFloor(t: LegTerms, k: int) returns (krw: int)
    ensures krw == MaintenanceFloor(t.ToLeg().units, k)
  {
    if k == 0 {
      return 0;
    }
    var c := t.market.config;
    var rate := c.topupTrigger * c.initialMarginRate;
    krw := CeilAmountKrw(rate, [Abs(k) as real, c.multiplier as real, t.market.level]);
    ProductOfThree(rate, Abs(k) as real, c.multiplier as real, t.market.level);
    assert krw == CeilTimes(t.ToLeg().units.floor, Abs(k));
  }

  method LegCommission(t: LegTerms, delta: int) returns (krw: int)
    ensures krw == Commission(t.ToLeg().units.cost, delta)
  {
    var c := t.market.config;
    krw := FuturesCommission(c.futuresCostRate, delta, c.multiplier, t.market.level);
    assert t.ToLeg().units.cost == CostUnit(c.futuresCostRate, c.multiplier, t.market.level);
  }

  method LegChoice(t: LegTerms, prior: int, remaining: int, inBand: bool) returns (k: int)
    requires t.market.Valid()
    ensures k == Choose(t.ToLeg(), prior, remaining, inBand)
  {
    if inBand && t.target == prior {
      return prior;
    }
    UnitsConsistent(t.market.config, t.market.level);
    var u := t.market.UnitsHere();
    k := LargestFundableContracts(u, t.target, prior, remaining);
    SearchIsScan(u, t.target, prior, remaining);
  }

  method TradeLeg(ledger: Ledger, session: int, t: LegTerms, k: int)
    requires t.market.Valid()
    modifies ledger
    ensures ledger.View() == FuturesTraded(old(ledger.View()), session, k, t.ToLeg().units.cost, t.name)
  {
    var c := t.market.config;
    var ok := ledger.TradeFutures(session, k, t.market.level, c.multiplier, c.futuresCostRate, t.name);
    assert ok;
    assert t.ToLeg().units.cost == CostUnit(c.futuresCostRate, c.multiplier, t.market.level);
  }

  // ----- sums over the legs -----

  method TotalReserve(ledger: Ledger, terms: seq<LegTerms>) returns (krw: int)
    requires forall t | t in terms :: t.market.Valid()
    ensures krw == SumReserve(ledger.View(), ToLegs(terms))
  {
    krw := 0;
    ghost var legs := ToLegs(terms);
    for n := 0 to |terms|
      invariant krw + SumReserve(ledger.View(), legs[n..]) == SumReserve(ledger.View(), legs)
    {
      var r := LegReserve(terms[n], LegContracts(ledger.View(), terms[n].name));
      assert legs[n..][1..] == legs[n + 1..];
      krw := krw + r;
    }
  }

  method TotalFloor(ledger: Ledger, terms: seq<LegTerms>) returns (krw: int)
    ensures krw == SumFloor(ledger.View(), ToLegs(terms))
  {
    krw := 0;
    ghost var legs := ToLegs(terms);
    for n := 0 to |terms|
      invariant krw + SumFloor(ledger.View(), legs[n..]) == SumFloor(ledger.View(), legs)
    {
      var r := LegFloor(terms[n], LegContracts(ledger.View(), terms[n].name));
      assert legs[n..][1..] == legs[n + 1..];
      krw := krw + r;
    }
  }

  method EveryLegAtTarget(ledger: Ledger, terms: seq<LegTerms>) returns (all: bool)
    ensures all == AllAtTarget(ledger.View(), ToLegs(terms))
  {
    all := true;
    ghost var legs := ToLegs(terms);
    for n := 0 to |terms|
      invariant all <==> forall m | 0 <= m < n :: legs[m].target == Held(ledger.View(), legs[m])
    {
      if terms[n].target != LegContracts(ledger.View(), terms[n].name) {
        all := false;
      }
    }
  }

  // ----- the synchronisation -----

  method FundOneLeg(ledger: Ledger, session: int, t: LegTerms, remaining: int, inBand: bool) returns (left: int)
    requires t.market.Valid()
    modifies ledger
    ensures ledger.View() == FundHead(old(ledger.View()), session, t.ToLeg(), remaining, inBand)
    ensures left == Left(old(ledger.View()), t.ToLeg(), remaining, inBand)
  {
    var prior := LegContracts(ledger.View(), t.name);
    var chosen := LegChoice(t, prior, remaining, inBand);
    if chosen != prior {
      TradeLeg(ledger, session, t, chosen);
    }
    var reserve := LegReserve(t, chosen);
    var commission := LegCommission(t, chosen - prior);
    left := remaining - (reserve + commission);
  }

  method FundEveryLeg(ledger: Ledger, session: int, terms: seq<LegTerms>, available: int, inBand: bool)
    requires forall t | t in terms :: t.market.Valid()
    modifies ledger
    ensures ledger.View() == FundLegs(old(ledger.View()), session, ToLegs(terms), available, inBand)
  {
    var remaining := available;
    ghost var legs := ToLegs(terms);
    ghost var goal := FundLegs(ledger.View(), session, legs, available, inBand);
    for n := 0 to |terms|
      invariant FundLegs(ledger.View(), session, legs[n..], remaining, inBand) == goal
    {
      assert legs[n..][0] == terms[n].ToLeg() && legs[n..][1..] == legs[n + 1..];
      FundOneStep(ledger.View(), session, legs[n..], remaining, inBand);
      remaining := FundOneLeg(ledger, session, terms[n], remaining, inBand);
    }
  }

  method MoveMargin(ledger: Ledger, session: int, terms: seq<LegTerms>) returns (ok: bool)
    requires forall t | t in terms :: t.market.Valid()
    requires 0 <= ledger.cash && 0 <= ledger.taxPayable
    modifies ledger
    ensures ok && ledger.View() == SyncMargin(old(ledger.View()), session, ToLegs(terms))
  {
    var reserve := TotalReserve(ledger, terms);
    var need := reserve - ledger.margin;
    ok := true;
    if need > 0 {
      ok := ledger.TransferMargin(session, Min(need, SpendableCash(ledger.View())));
    } else if need < 0 {
      ok := ledger.TransferMargin(session, need);
    }
  }

  method ReleaseExcess(ledger: Ledger, session: int, terms: seq<LegTerms>) returns (ok: bool)
    requires forall t | t in terms :: t.market.Valid()
    requires 0 <= ledger.cash && Holds(ledger.View(), ToLegs(terms))
    modifies ledger
    ensures ok && ledger.View() == Sync(old(ledger.View()), session, ToLegs(terms))
  {
    SyncWhenHolding(ledger.View(), session, ToLegs(terms));
    var reserve := TotalReserve(ledger, terms);
    ok := true;
    if ledger.margin > reserve {
      ok := ledger.TransferMargin(session, reserve - ledger.margin);
    }
  }

  method FundAndMove(ledger: Ledger, session: int, terms: seq<LegTerms>, available: int,
      inBand: bool) returns (ok: bool)
    requires ValidLegs(ToLegs(terms)) && forall t | t in terms :: t.market.Valid()
    requires 0 <= ledger.cash && 0 <= ledger.taxPayable
    modifies ledger
    ensures var funded := FundLegs(old(ledger.View()), session, ToLegs(terms), available, inBand);
      ok && ledger.View() == SyncMargin(funded, session, ToLegs(terms))
  {
    FundKeepsCash(ledger.View(), session, ToLegs(terms), available, inBand);
    FundEveryLeg(ledger, session, terms, available, inBand);
    ok := MoveMargin(ledger, session, terms);
  }

  lemma FundKeepsCash(a: Account, s: int, legs: seq<Leg>, available: int, inBand: bool)
    requires ValidLegs(legs)
    ensures var b := FundLegs(a, s, legs, available, inBand); b.cash == a.cash && b.taxPayable == a.taxPayable
  {
    FundSpendable(a, s, legs, available, inBand);
  }

  method TradeLegs(ledger: Ledger, session: int, terms: seq<LegTerms>, inBand: bool) returns (ok: bool)
    requires ValidLegs(ToLegs(terms)) && forall t | t in terms :: t.market.Valid()
    requires 0 <= ledger.cash && 0 <= ledger.taxPayable
    requires inBand == InBand(ledger.View(), ToLegs(terms)) && !Holds(ledger.View(), ToLegs(terms))
    modifies ledger
    ensures ok && ledger.View() == Sync(old(ledger.View()), session, ToLegs(terms))
  {
    var available := ledger.margin + SpendableCash(ledger.View());
    TradingIsSync(ledger.View(), session, ToLegs(terms), available, inBand);
    ok := FundAndMove(ledger, session, terms, available, inBand);
  }

  lemma TradingIsSync(a: Account, s: int, legs: seq<Leg>, available: int, inBand: bool)
    requires !Holds(a, legs) && available == a.margin + SpendableCash(a) && inBand == InBand(a, legs)
    ensures SyncMargin(FundLegs(a, s, legs, available, inBand), s, legs) == Sync(a, s, legs)
  {
    SyncWhenTrading(a, s, legs);
  }

  /** No margin transfer is ever refused. */
  method SyncLegs(ledger: Ledger, session: int, terms: seq<LegTerms>) returns (ok: bool)
    requires ValidLegs(ToLegs(terms)) && forall t | t in terms :: t.market.Valid()
    requires 0 <= ledger.cash && 0 <= ledger.taxPayable
    modifies ledger
    ensures ok && ledger.View() == Sync(old(ledger.View()), session, ToLegs(terms))
  {
    var floor := TotalFloor(ledger, terms);
    var inBand := ledger.margin >= floor;
    var settled := EveryLegAtTarget(ledger, terms);
    if inBand && settled {
      ok := ReleaseExcess(ledger, session, terms);
    } else {
      ok := TradeLegs(ledger, session, terms, inBand);
    }
  }

  function TermsOf(names: seq<string>, legTargets: map<string, int>,
      legMarkets: map<string, Market>): (terms: seq<LegTerms>)
    requires forall name | name in names :: name in legMarkets
    ensures |terms| == |names|
    ensures forall n | 0 <= n < |names| ::
      terms[n] == LegTerms(names[n], legMarkets[names[n]], Get(legTargets, names[n]))
  {
    if names == [] then []
    else [LegTerms(names[0], legMarkets[names[0]], Get(legTargets, names[0]))] + TermsOf(names[1..], legTargets,
      legMarkets)
  }

  /** The call of one session, with targets and markets by name.  No ledger call is refused. */
  method SyncOverlay(ledger: Ledger, session: int, target: int, primary: Market,
      legTargets: map<string, int>, legMarkets: map<string, Market>)
    returns (ok: bool)
    requires primary.Valid() && forall name | name in legMarkets :: legMarkets[name].Valid()
    requires PRIMARY_LEG !in legTargets && legTargets.Keys <= legMarkets.Keys
    requires PRIMARY_LEG !in ledger.secondary && HeldNames(ledger.View()) <= legMarkets.Keys
    requires 0 <= ledger.cash && 0 <= ledger.taxPayable
    modifies ledger
    ensures ok
    ensures InstructionOf(target, primary, legTargets, legMarkets).Valid()
    ensures var i := InstructionOf(target, primary, legTargets, legMarkets);
      ledger.View() == Sync(old(ledger.View()), session, LegsOf(i, old(ledger.View())))
  {
    ghost var i := InstructionOf(target, primary, legTargets, legMarkets);
    InstructionValid(target, primary, legTargets, legMarkets);
    var names := SortNames(legTargets.Keys + HeldNames(ledger.View()));
    var terms := [LegTerms(PRIMARY_LEG, primary, target)] + TermsOf(names, legTargets, legMarkets);
    TermsMatch(i, target, primary, legTargets, legMarkets, names);
    LegsOfValid(i, ledger.View());
    ok := SyncLegs(ledger, session, terms);
  }

  lemma InstructionValid(target: int, primary: Market, legTargets: map<string, int>, legMarkets: map<string, Market>)
    requires primary.Valid() && forall name | name in legMarkets :: legMarkets[name].Valid()
    requires PRIMARY_LEG !in legTargets && legTargets.Keys <= legMarkets.Keys
    ensures InstructionOf(target, primary, legTargets, legMarkets).Valid()
  {
    UnitsConsistent(primary.config, primary.level);
    forall name | name in legMarkets ensures legMarkets[name].UnitsHere().Consistent() {
      UnitsConsistent(legMarkets[name].config, legMarkets[name].level);
    }
  }

  lemma TermsMatch(i: Instruction, target: int, primary: Market,
      legTargets: map<string, int>, legMarkets: map<string, Market>, names: seq<string>)
    requires i == InstructionOf(target, primary, legTargets, legMarkets)
    requires forall name | name in names :: name in legMarkets
    ensures ToLegs([LegTerms(PRIMARY_LEG, primary, target)] + TermsOf(names, legTargets, legMarkets))
         == [PrimaryLeg(i)] + SecondaryLegs(i, names)
  {
    var terms := [LegTerms(PRIMARY_LEG, primary, target)] + TermsOf(names, legTargets, legMarkets);
    var legs := [PrimaryLeg(i)] + SecondaryLegs(i, names);
    forall n | 0 <= n < |terms| ensures ToLegs(terms)[n] == legs[n] {
      assert n == 0 || terms[n] == TermsOf(names, legTargets, legMarkets)[n - 1];
    }
  }
}
