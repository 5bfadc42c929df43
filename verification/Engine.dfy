/** One trading session of the engine, in its fixed order, and what every run of sessions keeps. */
module Engine {
  import opened Options
  import opened Rounding
  import opened Overlay
  import opened Costs
  import opened Sorting
  import opened Accounts
  import opened LedgerInvariants
  import opened NameOrder
  import opened SyncTheory
  import opened SyncFutures
  import opened OverlaySync
  import opened Fills

  datatype ShareFactor = ShareFactor(instrument: int, factor: real, basePrice: int)
  datatype Exit = Exit(instrument: int, price: int)
  datatype OverlayTarget = OverlayTarget(contracts: int, inverseValue: int, legs: map<string, int>)

  /** What the overlay sees of one session: levels of the previous and the current close, terms, the pending
      target if one was decided, and the inverse-ETF close if listed. */
  datatype OverlayDay = OverlayDay(
    prevLevel: real, primary: Market, prevLegLevels: map<string, real>, legMarkets: map<string, Market>,
    expiry: bool, target: Option<OverlayTarget>, inversePrice: Option<int>)

  datatype Day = Day(
    session: int, factors: seq<ShareFactor>, dividends: seq<DividendEvent>, exits: seq<Exit>, deposit: int,
    cashReturn: Option<real>, sells: seq<Fill>, buys: seq<Fill>, taxRates: map<int, real>, costs: CostConfig,
    overlay: Option<OverlayDay>, yearEnd: bool)

  // ----- what the engine guarantees about its inputs -----

  ghost predicate OverlayOk(o: OverlayDay, legs: set<string>) {
    && 0.0 < o.prevLevel && o.primary.Valid()
    && o.primary.config.inverseCostRate + o.primary.config.inverseTaxRate <= 1.0
    && o.legMarkets.Keys == legs && o.prevLegLevels.Keys == legs && PRIMARY_LEG !in legs
    && (forall name | name in legs :: o.legMarkets[name].Valid() && 0.0 < o.prevLegLevels[name])
    && (o.target.Some? ==> o.target.value.legs.Keys <= legs)
    && (o.inversePrice.Some? ==> 1 <= o.inversePrice.value)
  }

  ghost predicate DayOk(d: Day, legs: set<string>) {
    && (forall f | f in d.factors :: 0 <= f.instrument && 0.0 < f.factor && 0 <= f.basePrice)
    && (forall e | e in d.dividends :: 0 <= e.dps)
    && (forall x | x in d.exits :: 0 <= x.instrument && 0 <= x.price)
    && 0 <= d.deposit
    && (d.cashReturn.Some? ==> -1.0 < d.cashReturn.value)
    && (forall f | f in d.sells :: SaneSell(f))
    && (forall f | f in d.buys :: Sane(f))
    && SellRatesOk(d.taxRates, d.costs) && d.costs.Valid()
    && (d.overlay.Some? ==> OverlayOk(d.overlay.value, legs))
  }

  // ----- the phases -----

  function AfterFactors(a: Account, s: int, factors: seq<ShareFactor>): Account {
    if factors == [] then a
    else
      var f := factors[|factors| - 1];
      ShareFactored(AfterFactors(a, s, factors[..|factors| - 1]), s, f.instrument, f.factor, f.basePrice)
  }

  function AfterExits(a: Account, s: int, exits: seq<Exit>): Account {
    if exits == [] then a
    else
      var before, x := AfterExits(a, s, exits[..|exits| - 1]), exits[|exits| - 1];
      if x.instrument in before.positions then ExitClosed(before, s, x.instrument, x.price) else before
  }

  function AfterDeposit(a: Account, s: int, amount: int): Account {
    if amount == 0 then a else Deposited(a, s, amount)
  }

  function AfterYield(a: Account, s: int, cashReturn: Option<real>): Account {
    match cashReturn
    case None => a
    case Some(rate) => YieldAccrued(a, s, rate)
  }

  /** Variation of the named legs. */
  function LegsSettled(a: Account, s: int, names: seq<string>, o: OverlayDay): Account
    requires forall name | name in names :: name in o.legMarkets && name in o.prevLegLevels
  {
    if names == [] then a
    else
      var n := |names| - 1;
      var name := names[n];
      VariationSettled(LegsSettled(a, s, names[..n], o), s, o.prevLegLevels[name], o.legMarkets[name].level,
        o.legMarkets[name].config.multiplier, name)
  }

  function RolledAt(a: Account, s: int, m: Market, leg: string): Account {
    FuturesRolled(a, s, CostUnit(2.0 * m.config.futuresCostRate, m.config.multiplier, m.level), leg)
  }

  function LegsRolled(a: Account, s: int, names: seq<string>, o: OverlayDay): Account
    requires forall name | name in names :: name in o.legMarkets
  {
    if names == [] then a
    else
      var n := |names| - 1;
      RolledAt(LegsRolled(a, s, names[..n], o), s, o.legMarkets[names[n]], names[n])
  }

  ghost function AfterVariation(a: Account, s: int, o: OverlayDay): Account
    requires HeldNames(a) <= o.legMarkets.Keys && o.prevLegLevels.Keys == o.legMarkets.Keys
  {
    var b := VariationSettled(a, s, o.prevLevel, o.primary.level, o.primary.config.multiplier, PRIMARY_LEG);
    LegsSettled(b, s, Ascending(HeldNames(a)), o)
  }

  ghost function AfterRoll(a: Account, s: int, o: OverlayDay): Account
    requires HeldNames(a) <= o.legMarkets.Keys
  {
    if !o.expiry then a
    else LegsRolled(RolledAt(a, s, o.primary, PRIMARY_LEG), s, Ascending(HeldNames(a)), o)
  }

  /** Without a pending target the engine keeps what is held. */
  function PendingInstruction(a: Account, o: OverlayDay): Instruction {
    match o.target
    case Some(t) => InstructionOf(t.contracts, o.primary, t.legs, o.legMarkets)
    case None =>
      InstructionOf(a.contracts, o.primary, map name | name in HeldNames(a) :: a.secondary[name], o.legMarkets)
  }

  function AfterInversePhase(a: Account, s: int, o: OverlayDay): Account
    requires o.inversePrice.Some? ==> 1 <= o.inversePrice.value
  {
    match o.inversePrice
    case None => a
    case Some(price) =>
      var value := if o.target.Some? then o.target.value.inverseValue else a.inverseUnits * price;
      if value > 0 || a.inverseUnits > 0 then
        AfterInverse(a, s, value, price, o.primary.config.inverseCostRate, o.primary.config.inverseTaxRate)
      else a
  }

  // ----- each phase is safe -----

  /** From `a` to `b`: the journal accounts for every movement and `b` is consistent and not overdrawn. */
  ghost predicate Safely(a: Account, b: Account) {
    Books(a, b) && Consistent(b) && Healthy(b)
  }

  /** ... and no futures leg changed. */
  ghost predicate Calmly(a: Account, b: Account) {
    Safely(a, b) && b.contracts == a.contracts && b.secondary == a.secondary
  }

  ghost predicate Sound(a: Account) {
    Consistent(a) && Healthy(a)
  }

  lemma SafelyChains(a: Account, b: Account, c: Account)
    requires Safely(a, b) && Safely(b, c)
    ensures Safely(a, c)
  {
    BooksTransitive(a, b, c);
  }

  lemma CalmlyChains(a: Account, b: Account, c: Account)
    requires Calmly(a, b) && Calmly(b, c)
    ensures Calmly(a, c)
  {
    SafelyChains(a, b, c);
  }

  lemma KeepsLegs(a: Account, op: Op)
    requires Accepts(a, op) && !op.TradeFutures?
    ensures Apply(a, op).contracts == a.contracts && Apply(a, op).secondary == a.secondary
  {
    if op.RecordDividends? {
      DividendsRecordedKeeps(a, op.events);
    }
  }

  lemma OpIsSafe(a: Account, op: Op)
    requires Sound(a) && Accepts(a, op) && Priced(op) && !op.TradeFutures?
    ensures Calmly(a, Apply(a, op))
  {
    KeepsLegs(a, op);
    ApplyBooks(a, op);
    ApplyConsistent(a, op);
    ApplyHealthy(a, op);
  }

  lemma NothingIsSafe(a: Account)
    requires Sound(a)
    ensures Calmly(a, a)
  {
  }

  lemma {:induction false} FactorsAreSafe(a: Account, s: int, factors: seq<ShareFactor>)
    requires Sound(a) && forall f | f in factors :: 0 <= f.instrument && 0.0 < f.factor && 0 <= f.basePrice
    ensures Calmly(a, AfterFactors(a, s, factors))
  {
    if factors == [] {
      NothingIsSafe(a);
    } else {
      var before, f := AfterFactors(a, s, factors[..|factors| - 1]), factors[|factors| - 1];
      FactorsAreSafe(a, s, factors[..|factors| - 1]);
      OpIsSafe(before, ApplyShareFactor(s, f.instrument, f.factor, f.basePrice));
      CalmlyChains(a, before, AfterFactors(a, s, factors));
    }
  }

  lemma {:induction false} ExitsAreSafe(a: Account, s: int, exits: seq<Exit>)
    requires Sound(a) && forall x | x in exits :: 0 <= x.instrument && 0 <= x.price
    ensures Calmly(a, AfterExits(a, s, exits))
  {
    if exits == [] {
      NothingIsSafe(a);
    } else {
      var before, x := AfterExits(a, s, exits[..|exits| - 1]), exits[|exits| - 1];
      ExitsAreSafe(a, s, exits[..|exits| - 1]);
      if x.instrument in before.positions {
        OpIsSafe(before, CloseExit(s, x.instrument, x.price));
        CalmlyChains(a, before, AfterExits(a, s, exits));
      }
    }
  }

  lemma {:induction false} SellsAreSafe(a: Account, s: int, fills: seq<Fill>, taxRates: map<int, real>,
      config: CostConfig)
    requires Sound(a) && (forall f | f in fills :: SaneSell(f)) && SellRatesOk(taxRates, config)
    ensures Calmly(a, AfterSells(a, s, fills, taxRates, config))
  {
    if fills == [] {
      NothingIsSafe(a);
    } else {
      var before, f := AfterSells(a, s, fills[..|fills| - 1], taxRates, config), fills[|fills| - 1];
      SellsAreSafe(a, s, fills[..|fills| - 1], taxRates, config);
      SellIsSafe(before, s, f, taxRates, config);
      CalmlyChains(a, before, AfterSells(a, s, fills, taxRates, config));
    }
  }

  lemma SellIsSafe(a: Account, s: int, f: Fill, taxRates: map<int, real>, config: CostConfig)
    requires Sound(a) && SaneSell(f) && SellRatesOk(taxRates, config)
    ensures Calmly(a, AfterSell(a, s, f, taxRates, config))
  {
    AfterSellIsSafe(a, s, f, taxRates, config);
    var q, i := SellApplied(a, f), f.order.instrument;
    if 0 < q {
      var c := FillCost(SELL, q, f.price, TaxRate(taxRates, i), config);
      OpIsSafe(a, Sell(s, i, q, f.price, c.commission, c.sellTax));
    } else {
      NothingIsSafe(a);
    }
  }

  lemma BuyIsSafe(a: Account, s: int, f: Fill, rate: real)
    requires Sound(a) && Sane(f) && 0.0 <= rate
    ensures Calmly(a, AfterBuy(a, s, f, rate))
  {
    AfterBuyIsSafe(a, s, f, rate);
    var q := BuyApplied(a, f, rate);
    if 0 < q {
      OpIsSafe(a, Buy(s, f.order.instrument, q, f.price, Truncated(q * f.price, rate)));
    } else {
      NothingIsSafe(a);
    }
  }

  lemma {:induction false} BuysSafely(a: Account, s: int, fills: seq<Fill>, rate: real)
    requires Sound(a) && (forall f | f in fills :: Sane(f)) && 0.0 <= rate
    ensures Calmly(a, AfterBuys(a, s, fills, rate))
  {
    if fills == [] {
      NothingIsSafe(a);
    } else {
      var before := AfterBuys(a, s, fills[..|fills| - 1], rate);
      BuysSafely(a, s, fills[..|fills| - 1], rate);
      BuyIsSafe(before, s, fills[|fills| - 1], rate);
      CalmlyChains(a, before, AfterBuys(a, s, fills, rate));
    }
  }

  lemma {:induction false} LegsSettledSafely(a: Account, s: int, names: seq<string>, o: OverlayDay, legs: set<string>)
    requires Sound(a) && OverlayOk(o, legs) && forall name | name in names :: name in legs
    ensures Calmly(a, LegsSettled(a, s, names, o))
  {
    if names == [] {
      NothingIsSafe(a);
    } else {
      var n := |names| - 1;
      var before, name := LegsSettled(a, s, names[..n], o), names[n];
      assert name in names;
      LegsSettledSafely(a, s, names[..n], o, legs);
      var m := o.legMarkets[name];
      OpIsSafe(before, SettleVariation(s, o.prevLegLevels[name], m.level, m.config.multiplier, name));
      CalmlyChains(a, before, LegsSettled(a, s, names, o));
    }
  }

  lemma RollAccepted(a: Account, s: int, m: Market, leg: string, op: Op)
    requires m.Valid() && op == RollFutures(s, m.level, m.config.multiplier, m.config.futuresCostRate, leg)
    ensures Accepts(a, op) && Priced(op) && Apply(a, op) == RolledAt(a, s, m, leg)
  {
  }

  lemma RollIsSafe(a: Account, s: int, m: Market, leg: string)
    requires Sound(a) && m.Valid()
    ensures Calmly(a, RolledAt(a, s, m, leg))
  {
    var op := RollFutures(s, m.level, m.config.multiplier, m.config.futuresCostRate, leg);
    RollAccepted(a, s, m, leg, op);
    OpIsSafe(a, op);
  }

  lemma {:induction false} LegsRolledSafely(a: Account, s: int, names: seq<string>, o: OverlayDay, legs: set<string>)
    requires Sound(a) && OverlayOk(o, legs) && forall name | name in names :: name in legs
    ensures Calmly(a, LegsRolled(a, s, names, o))
  {
    if names == [] {
      NothingIsSafe(a);
    } else {
      var n := |names| - 1;
      var before, name := LegsRolled(a, s, names[..n], o), names[n];
      assert name in names;
      LegsRolledSafely(a, s, names[..n], o, legs);
      RollIsSafe(before, s, o.legMarkets[name], name);
      CalmlyChains(a, before, LegsRolled(a, s, names, o));
    }
  }

  lemma VariationSafely(a: Account, s: int, o: OverlayDay, legs: set<string>)
    requires Sound(a) && OverlayOk(o, legs) && HeldNames(a) <= legs
    ensures Calmly(a, AfterVariation(a, s, o))
  {
    var m := o.primary;
    var b := VariationSettled(a, s, o.prevLevel, m.level, m.config.multiplier, PRIMARY_LEG);
    OpIsSafe(a, SettleVariation(s, o.prevLevel, m.level, m.config.multiplier, PRIMARY_LEG));
    LegsSettledSafely(b, s, Ascending(HeldNames(a)), o, legs);
    CalmlyChains(a, b, AfterVariation(a, s, o));
  }

  lemma RollSafely(a: Account, s: int, o: OverlayDay, legs: set<string>)
    requires Sound(a) && OverlayOk(o, legs) && HeldNames(a) <= legs
    ensures Calmly(a, AfterRoll(a, s, o))
  {
    if o.expiry {
      var b := RolledAt(a, s, o.primary, PRIMARY_LEG);
      RollIsSafe(a, s, o.primary, PRIMARY_LEG);
      LegsRolledSafely(b, s, Ascending(HeldNames(a)), o, legs);
      CalmlyChains(a, b, AfterRoll(a, s, o));
    } else {
      NothingIsSafe(a);
    }
  }

  lemma TradeIsSafe(a: Account, s: int, k: int, unit: real, leg: string)
    requires Sound(a) && 0.0 <= unit
    ensures Safely(a, FuturesTraded(a, s, k, unit, leg))
  {
    FuturesTradedBooks(a, s, k, unit, leg);
    TradeMoves(a, s, k, unit, leg);
  }

  lemma {:induction false} FundingIsSafe(a: Account, s: int, legs: seq<Leg>, remaining: int, inBand: bool)
    requires Sound(a) && ValidLegs(legs)
    ensures Safely(a, FundLegs(a, s, legs, remaining, inBand))
    decreases |legs|
  {
    if legs == [] {
      NothingIsSafe(a);
    } else {
      var l := legs[0];
      var a1 := FundHead(a, s, l, remaining, inBand);
      HeadName(legs);
      TradeIsSafe(a, s, Choose(l, Held(a, l), remaining, inBand), l.units.cost, l.name);
      FundingIsSafe(a1, s, legs[1..], Left(a, l, remaining, inBand), inBand);
      FundOneStep(a, s, legs, remaining, inBand);
      SafelyChains(a, a1, FundLegs(a, s, legs, remaining, inBand));
    }
  }

  lemma TransferIsSafe(a: Account, s: int, amount: int)
    requires Sound(a) && amount <= Max(a.cash - a.taxPayable, 0)
    ensures Safely(a, MarginTransferred(a, s, amount))
  {
    OpIsSafe(a, TransferMargin(s, amount));
  }

  /** Synchronising the overlay is safe: no transfer is refused, nothing is overdrawn, everything is booked. */
  lemma SyncIsSafe(a: Account, s: int, legs: seq<Leg>)
    requires Sound(a) && ValidLegs(legs)
    ensures Safely(a, Sync(a, s, legs))
  {
    if Holds(a, legs) {
      if SumReserve(a, legs) < a.margin {
        TransferIsSafe(a, s, SumReserve(a, legs) - a.margin);
      } else {
        NothingIsSafe(a);
      }
    } else {
      var m := Funded(a, s, legs);
      FundingIsSafe(a, s, legs, a.margin + SpendableCash(a), InBand(a, legs));
      SyncMarginIsSafe(m, s, legs);
      SafelyChains(a, m, SyncMargin(m, s, legs));
    }
  }

  lemma SyncMarginIsSafe(m: Account, s: int, legs: seq<Leg>)
    requires Sound(m)
    ensures Safely(m, SyncMargin(m, s, legs))
  {
    var need := SumReserve(m, legs) - m.margin;
    TransferIsSafe(m, s, if need > 0 then Min(need, SpendableCash(m)) else need);
  }

  lemma InverseIsSafe(a: Account, s: int, o: OverlayDay, legs: set<string>)
    requires Sound(a) && OverlayOk(o, legs)
    ensures Calmly(a, AfterInversePhase(a, s, o))
  {
    NothingIsSafe(a);
    if o.inversePrice.Some? {
      var price := o.inversePrice.value;
      var value := if o.target.Some? then o.target.value.inverseValue else a.inverseUnits * price;
      InverseTradeIsSafe(a, s, value, price, o.primary.config);
    }
  }

  lemma InverseTradeIsSafe(a: Account, s: int, value: int, price: int, config: DerivativeConfig)
    requires Sound(a) && config.Valid() && 1 <= price && config.inverseCostRate + config.inverseTaxRate <= 1.0
    ensures Calmly(a, AfterInverse(a, s, value, price, config.inverseCostRate, config.inverseTaxRate))
  {
    var rate, desired := config.inverseCostRate, DesiredUnits(value, price);
    if desired < a.inverseUnits {
      OpIsSafe(a, SellInverse(s, a.inverseUnits - desired, price, rate, config.inverseTaxRate));
    } else {
      InversePurchaseIsSafe(a, s, value, price, rate);
      var units := InverseUnitsBought(a, value, price, rate);
      if 0 < units {
        OpIsSafe(a, BuyInverse(s, units, price, rate));
      } else {
        NothingIsSafe(a);
      }
    }
  }

  // ----- one session -----

  /** Corporate actions, dividends, exits, deposits and the cash sweep, before any order. */
  function AfterEvents(a: Account, d: Day): Account {
    var b := DividendsRecorded(AfterFactors(a, d.session, d.factors), d.dividends);
    var c := AfterExits(DividendsSettled(b, d.session, d.costs), d.session, d.exits);
    AfterYield(AfterDeposit(c, d.session, d.deposit), d.session, d.cashReturn)
  }

  /** The account the buys start from: sells are booked and owed tax is paid. */
  function BeforeBuys(a: Account, d: Day): Account {
    PayableSettled(AfterSells(a, d.session, d.sells, d.taxRates, d.costs), d.session)
  }

  /** Sells, then owed tax, then buys. */
  function AfterOrders(a: Account, d: Day): Account {
    AfterBuys(BeforeBuys(a, d), d.session, SortBy(d.buys, LargerFirst), d.costs.commissionRate)
  }

  /** Variation, roll, and the overlay trade with its margin. */
  ghost function BeforeInverse(a: Account, s: int, o: OverlayDay, legs: set<string>): Account
    requires Sound(a) && OverlayOk(o, legs) && HeldNames(a) <= legs
  {
    VariationSafely(a, s, o, legs);
    var b := AfterVariation(a, s, o);
    RollSafely(b, s, o, legs);
    var c := AfterRoll(b, s, o);
    PendingValid(c, o, legs);
    Sync(c, s, LegsOf(PendingInstruction(c, o), c))
  }

  /** Inverse units are held or aimed at, and there is no close to trade them at. */
  predicate CloseMissing(a: Account, o: OverlayDay) {
    o.inversePrice.None? && (a.inverseUnits > 0 || (o.target.Some? && o.target.value.inverseValue > 0))
  }

  ghost function AfterOverlay(a: Account, s: int, o: OverlayDay, legs: set<string>): Account
    requires Sound(a) && OverlayOk(o, legs) && HeldNames(a) <= legs
  {
    AfterInversePhase(BeforeInverse(a, s, o, legs), s, o)
  }

  function AfterYearEnd(a: Account, d: Day): Account {
    if !d.yearEnd then a
    else
      var b := if d.cashReturn.Some? then YieldTaxSettled(a, d.session, d.costs) else a;
      if d.overlay.Some? then FuturesTaxSettled(b, d.session, d.overlay.value.primary.config) else b
  }

  lemma PendingValid(a: Account, o: OverlayDay, legs: set<string>)
    requires Consistent(a) && OverlayOk(o, legs) && HeldNames(a) <= legs
    ensures PendingInstruction(a, o).Valid() && Covers(PendingInstruction(a, o), a)
    ensures LegNamesOf(PendingInstruction(a, o), a) <= legs
  {
    match o.target
    case Some(t) => InstructionValid(t.contracts, o.primary, t.legs, o.legMarkets);
    case None =>
      InstructionValid(a.contracts, o.primary, map name | name in HeldNames(a) :: a.secondary[name], o.legMarkets);
  }

  lemma EventsAreSafe(a: Account, d: Day, legs: set<string>)
    requires Sound(a) && DayOk(d, legs)
    ensures Calmly(a, AfterEvents(a, d))
  {
    var s := d.session;
    var a1 := AfterFactors(a, s, d.factors);
    FactorsAreSafe(a, s, d.factors);
    var a2 := DividendsRecorded(a1, d.dividends);
    OpIsSafe(a1, RecordDividends(d.dividends));
    var a3 := DividendsSettled(a2, s, d.costs);
    OpIsSafe(a2, SettleDividends(s, d.costs));
    CalmlyChains(a, a1, a2);
    CalmlyChains(a, a2, a3);
    var a4 := AfterExits(a3, s, d.exits);
    ExitsAreSafe(a3, s, d.exits);
    CalmlyChains(a, a3, a4);
    FundingEventsAreSafe(a4, d, legs);
    CalmlyChains(a, a4, AfterEvents(a, d));
  }

  lemma FundingEventsAreSafe(a: Account, d: Day, legs: set<string>)
    requires Sound(a) && DayOk(d, legs)
    ensures Calmly(a, AfterYield(AfterDeposit(a, d.session, d.deposit), d.session, d.cashReturn))
  {
    var b := AfterDeposit(a, d.session, d.deposit);
    NothingIsSafe(a);
    if d.deposit != 0 {
      OpIsSafe(a, Deposit(d.session, d.deposit));
    }
    NothingIsSafe(b);
    if d.cashReturn.Some? {
      OpIsSafe(b, AccrueCashYield(d.session, d.cashReturn.value));
    }
    CalmlyChains(a, b, AfterYield(b, d.session, d.cashReturn));
  }

  lemma OrdersAreSafe(a: Account, d: Day, legs: set<string>)
    requires Sound(a) && DayOk(d, legs)
    ensures Calmly(a, AfterOrders(a, d))
  {
    var b := AfterSells(a, d.session, d.sells, d.taxRates, d.costs);
    SellsAreSafe(a, d.session, d.sells, d.taxRates, d.costs);
    var c := PayableSettled(b, d.session);
    OpIsSafe(b, SettleTaxPayable(d.session));
    SortByElements(d.buys, LargerFirst);
    BuysSafely(c, d.session, SortBy(d.buys, LargerFirst), d.costs.commissionRate);
    CalmlyChains(a, b, c);
    CalmlyChains(a, c, AfterOrders(a, d));
  }

  lemma OverlayIsSafe(a: Account, s: int, o: OverlayDay, legs: set<string>)
    requires Sound(a) && OverlayOk(o, legs) && HeldNames(a) <= legs
    ensures Safely(a, AfterOverlay(a, s, o, legs)) && HeldNames(AfterOverlay(a, s, o, legs)) <= legs
  {
    var b := AfterVariation(a, s, o);
    VariationSafely(a, s, o, legs);
    var c := AfterRoll(b, s, o);
    RollSafely(b, s, o, legs);
    CalmlyChains(a, b, c);
    PendingValid(c, o, legs);
    var i := PendingInstruction(c, o);
    LegsOfValid(i, c);
    var e := Sync(c, s, LegsOf(i, c));
    SyncIsSafe(c, s, LegsOf(i, c));
    SyncSecondary(i, c, s);
    SafelyChains(a, c, e);
    InverseIsSafe(e, s, o, legs);
    SafelyChains(a, e, AfterInversePhase(e, s, o));
  }

  lemma YearEndIsSafe(a: Account, d: Day, legs: set<string>)
    requires Sound(a) && DayOk(d, legs)
    ensures Calmly(a, AfterYearEnd(a, d))
  {
    NothingIsSafe(a);
    if d.yearEnd {
      var b := if d.cashReturn.Some? then YieldTaxSettled(a, d.session, d.costs) else a;
      if d.cashReturn.Some? {
        OpIsSafe(a, SettleCashYieldTax(d.session, d.costs));
      }
      NothingIsSafe(b);
      if d.overlay.Some? {
        OpIsSafe(b, SettleFuturesTax(d.session, d.overlay.value.primary.config));
      }
      CalmlyChains(a, b, AfterYearEnd(a, d));
    }
  }

  /** The account the overlay of a session starts from. */
  ghost function BeforeOverlay(a: Account, d: Day, legs: set<string>): (b: Account)
    requires Sound(a) && DayOk(d, legs) && HeldNames(a) <= legs
    ensures Sound(b) && HeldNames(b) <= legs
  {
    EventsAreSafe(a, d, legs);
    OrdersAreSafe(AfterEvents(a, d), d, legs);
    AfterOrders(AfterEvents(a, d), d)
  }

  /** A session in the engine's order. */
  ghost function AfterSession(a: Account, d: Day, legs: set<string>): Account
    requires Sound(a) && DayOk(d, legs) && HeldNames(a) <= legs
  {
    var b := BeforeOverlay(a, d, legs);
    AfterYearEnd(if d.overlay.Some? then AfterOverlay(b, d.session, d.overlay.value, legs) else b, d)
  }

  /** A session that cannot be finished: the inverse close it needs is missing. */
  ghost predicate Stuck(a: Account, d: Day, legs: set<string>)
    requires Sound(a) && DayOk(d, legs) && HeldNames(a) <= legs
  {
    d.overlay.Some? &&
    CloseMissing(BeforeInverse(BeforeOverlay(a, d, legs), d.session, d.overlay.value, legs), d.overlay.value)
  }

  lemma SessionIsSafe(a: Account, d: Day, legs: set<string>)
    requires Sound(a) && DayOk(d, legs) && HeldNames(a) <= legs
    ensures Safely(a, AfterSession(a, d, legs)) && HeldNames(AfterSession(a, d, legs)) <= legs
  {
    var b := AfterOrders(AfterEvents(a, d), d);
    EventsAreSafe(a, d, legs);
    OrdersAreSafe(AfterEvents(a, d), d, legs);
    CalmlyChains(a, AfterEvents(a, d), b);
    var c := if d.overlay.Some? then AfterOverlay(b, d.session, d.overlay.value, legs) else b;
    NothingIsSafe(b);
    if d.overlay.Some? {
      OverlayIsSafe(b, d.session, d.overlay.value, legs);
    }
    SafelyChains(a, b, c);
    YearEndIsSafe(c, d, legs);
    SafelyChains(a, c, AfterYearEnd(c, d));
  }

  // ----- every run -----

  ghost function AfterRun(a: Account, days: seq<Day>, legs: set<string>): (b: Account)
    requires Sound(a) && HeldNames(a) <= legs && forall d | d in days :: DayOk(d, legs)
    ensures Safely(a, b) && HeldNames(b) <= legs
    decreases |days|
  {
    if days == [] then NothingIsSafe(a); a
    else
      SessionIsSafe(a, days[0], legs);
      var b := AfterSession(a, days[0], legs);
      var c := AfterRun(b, days[1..], legs);
      SafelyChains(a, b, c);
      c
  }

  /** Over every run of sessions: cash, margin, owed tax and every holding equal their journal sums, the
      receivable equals what is due, and free cash never goes negative. */
  lemma EveryBacktestReconciles(initialCash: nat, days: seq<Day>, legs: set<string>)
    requires forall d | d in days :: DayOk(d, legs)
    ensures Sound(Opened(initialCash)) && HeldNames(Opened(initialCash)) <= legs
    ensures var b := AfterRun(Opened(initialCash), days, legs);
      Reconciled(b) && Consistent(b) && Healthy(b)
  {
    var a := Opened(initialCash);
    assert Sound(a) && HeldNames(a) == {};
    var b := AfterRun(a, days, legs);
    forall m: Measure ensures Balance(b, m) == JournalSum(b.journal, m) {
      assert Balance(a, m) == 0;
    }
  }
}
