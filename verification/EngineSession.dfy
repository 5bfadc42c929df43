/** The engine's session loop on the ledger object: every phase calls the ledger in the fixed order and
    none of its calls is refused. */
module EngineSession {
  import opened Overlay
  import opened Sorting
  import opened Accounts
  import opened LedgerInvariants
  import opened Ledgers
  import opened NameOrder
  import opened SyncTheory
  import opened SyncFutures
  import opened OverlaySync
  import opened Fills
  import opened Engine

  method ApplyShareFactors(ledger: Ledger, session: int, factors: seq<ShareFactor>)
    requires forall f | f in factors :: 0 <= f.instrument
    modifies ledger
    ensures ledger.View() == AfterFactors(old(ledger.View()), session, factors)
  {
    for n := 0 to |factors|
      invariant ledger.View() == AfterFactors(old(ledger.View()), session, factors[..n])
    {
      assert factors[n] in factors;
      PrefixSteps(factors, n);
      var ok := ledger.ApplyShareFactor(session, factors[n].instrument, factors[n].factor, factors[n].basePrice);
      assert ok;
    }
    assert factors[..|factors|] == factors;
  }

  method CloseExits(ledger: Ledger, session: int, exits: seq<Exit>)
    requires forall x | x in exits :: 0 <= x.instrument && 0 <= x.price
    modifies ledger
    ensures ledger.View() == AfterExits(old(ledger.View()), session, exits)
  {
    for n := 0 to |exits|
      invariant ledger.View() == AfterExits(old(ledger.View()), session, exits[..n])
    {
      assert exits[n] in exits;
      PrefixSteps(exits, n);
      if exits[n].instrument in ledger.positions {
        var ok := ledger.CloseExit(session, exits[n].instrument, exits[n].price);
        assert ok;
      }
    }
    assert exits[..|exits|] == exits;
  }

  method ReceiveCash(ledger: Ledger, d: Day, ghost legs: set<string>)
    requires DayOk(d, legs)
    modifies ledger
    ensures ledger.View() == AfterYield(AfterDeposit(old(ledger.View()), d.session, d.deposit), d.session, d.cashReturn)
  {
    var ok;
    if d.deposit != 0 {
      ok := ledger.Deposit(d.session, d.deposit);
      assert ok;
    }
    if d.cashReturn.Some? {
      ok := ledger.AccrueCashYield(d.session, d.cashReturn.value);
      assert ok;
    }
  }

  method ApplyEvents(ledger: Ledger, d: Day, ghost legs: set<string>)
    requires Sound(ledger.View()) && DayOk(d, legs)
    modifies ledger
    ensures ledger.View() == AfterEvents(old(ledger.View()), d)
  {
    FactorsAreSafe(ledger.View(), d.session, d.factors);
    ApplyShareFactors(ledger, d.session, d.factors);
    DividendsRecordedHealthy(ledger.View(), d.dividends);
    ledger.RecordDividendEntitlements(d.dividends);
    var ok := ledger.SettleDividends(d.session, d.costs);
    assert ok;
    CloseExits(ledger, d.session, d.exits);
    ReceiveCash(ledger, d, legs);
  }

  method ApplyOrders(ledger: Ledger, d: Day, carryUnfilled: bool, ghost legs: set<string>)
    returns (sells: Tally, buys: Tally)
    requires Sound(ledger.View()) && DayOk(d, legs)
    modifies ledger
    ensures ledger.View() == AfterOrders(old(ledger.View()), d)
    ensures var applied := SellsApplied(old(ledger.View()), d.session, d.sells, d.taxRates, d.costs);
      sells == TallyOf(d.sells, applied, d.session, carryUnfilled)
    ensures var ordered := SortBy(d.buys, LargerFirst);
      var applied := BuysApplied(BeforeBuys(old(ledger.View()), d), d.session, ordered, d.costs.commissionRate);
      buys == TallyOf(ordered, applied, d.session, carryUnfilled)
  {
    SellsAreSafe(ledger.View(), d.session, d.sells, d.taxRates, d.costs);
    sells := ApplySellFills(ledger, d.session, d.sells, d.taxRates, d.costs, carryUnfilled);
    OpIsSafe(ledger.View(), SettleTaxPayable(d.session));
    ledger.SettleTaxPayable(d.session);
    buys := ApplyBuyFills(ledger, d.session, d.buys, d.costs, carryUnfilled);
  }

  method SettleLegs(ledger: Ledger, session: int, names: seq<string>, o: OverlayDay, ghost legs: set<string>)
    requires OverlayOk(o, legs) && forall name | name in names :: name in legs
    modifies ledger
    ensures ledger.View() == LegsSettled(old(ledger.View()), session, names, o)
  {
    for n := 0 to |names|
      invariant ledger.View() == LegsSettled(old(ledger.View()), session, names[..n], o)
    {
      var name := names[n];
      assert name in names;
      PrefixSteps(names, n);
      var m := o.legMarkets[name];
      var ok := ledger.SettleVariation(session, o.prevLegLevels[name], m.level, m.config.multiplier, name);
      assert ok;
    }
    assert names[..|names|] == names;
  }

  method RollLeg(ledger: Ledger, session: int, m: Market, leg: string)
    requires m.Valid()
    modifies ledger
    ensures ledger.View() == RolledAt(old(ledger.View()), session, m, leg)
  {
    var ok := ledger.RollFutures(session, m.level, m.config.multiplier, m.config.futuresCostRate, leg);
    assert ok;
  }

  method RollLegs(ledger: Ledger, session: int, names: seq<string>, o: OverlayDay, ghost legs: set<string>)
    requires OverlayOk(o, legs) && forall name | name in names :: name in legs
    modifies ledger
    ensures ledger.View() == LegsRolled(old(ledger.View()), session, names, o)
  {
    for n := 0 to |names|
      invariant ledger.View() == LegsRolled(old(ledger.View()), session, names[..n], o)
    {
      assert names[n] in names;
      PrefixSteps(names, n);
      RollLeg(ledger, session, o.legMarkets[names[n]], names[n]);
    }
    assert names[..|names|] == names;
  }

  method SettleAndRoll(ledger: Ledger, session: int, o: OverlayDay, ghost legs: set<string>)
    requires Sound(ledger.View()) && OverlayOk(o, legs) && HeldNames(ledger.View()) <= legs
    modifies ledger
    ensures HeldNames(old(ledger.View())) <= legs && HeldNames(AfterVariation(old(ledger.View()), session, o)) <= legs
    ensures ledger.View() == AfterRoll(AfterVariation(old(ledger.View()), session, o), session, o)
  {
    VariationSafely(ledger.View(), session, o, legs);
    var names := SortNames(HeldNames(ledger.View()));
    var ok := ledger.SettleVariation(session, o.prevLevel, o.primary.level, o.primary.config.multiplier, PRIMARY_LEG);
    assert ok;
    SettleLegs(ledger, session, names, o, legs);
    if o.expiry {
      names := SortNames(HeldNames(ledger.View()));
      RollLeg(ledger, session, o.primary, PRIMARY_LEG);
      RollLegs(ledger, session, names, o, legs);
    }
  }

  method TradeOverlay(ledger: Ledger, session: int, o: OverlayDay, ghost legs: set<string>)
    requires Sound(ledger.View()) && OverlayOk(o, legs) && HeldNames(ledger.View()) <= legs
    modifies ledger
    ensures PendingInstruction(old(ledger.View()), o).Valid() &&
      Covers(PendingInstruction(old(ledger.View()), o), old(ledger.View()))
    ensures ledger.View() ==
      Sync(old(ledger.View()), session, LegsOf(PendingInstruction(old(ledger.View()), o), old(ledger.View())))
  {
    PendingValid(ledger.View(), o, legs);
    var contracts, targets := ledger.contracts, map name | name in HeldNames(ledger.View()) :: ledger.secondary[name];
    if o.target.Some? {
      contracts, targets := o.target.value.contracts, o.target.value.legs;
    }
    var ok := SyncOverlay(ledger, session, contracts, o.primary, targets, o.legMarkets);
    assert ok;
  }

  /** A missing inverse close is an error exactly when units are held or aimed at. */
  method TradeInverse(ledger: Ledger, session: int, o: OverlayDay, ghost legs: set<string>) returns (ok: bool)
    requires Sound(ledger.View()) && OverlayOk(o, legs)
    modifies ledger
    ensures ok <==> !CloseMissing(old(ledger.View()), o)
    ensures ledger.View() == AfterInversePhase(old(ledger.View()), session, o)
  {
    match o.inversePrice
    case None =>
      ok := ledger.inverseUnits <= 0 && (o.target.None? || o.target.value.inverseValue <= 0);
    case Some(price) =>
      ok := true;
      var value := if o.target.Some? then o.target.value.inverseValue else ledger.inverseUnits * price;
      if value > 0 || ledger.inverseUnits > 0 {
        SyncInverse(ledger, session, value, price, o.primary.config);
      }
  }

  method ApplyOverlay(ledger: Ledger, session: int, o: OverlayDay, ghost legs: set<string>) returns (ok: bool)
    requires Sound(ledger.View()) && OverlayOk(o, legs) && HeldNames(ledger.View()) <= legs
    modifies ledger
    ensures ok <==> !CloseMissing(BeforeInverse(old(ledger.View()), session, o, legs), o)
    ensures ledger.View() == AfterOverlay(old(ledger.View()), session, o, legs)
    ensures !ok ==> ledger.View() == BeforeInverse(old(ledger.View()), session, o, legs)
  {
    ghost var a := ledger.View();
    VariationSafely(a, session, o, legs);
    RollSafely(AfterVariation(a, session, o), session, o, legs);
    SettleAndRoll(ledger, session, o, legs);
    ghost var c := ledger.View();
    PendingValid(c, o, legs);
    LegsOfValid(PendingInstruction(c, o), c);
    SyncIsSafe(c, session, LegsOf(PendingInstruction(c, o), c));
    TradeOverlay(ledger, session, o, legs);
    ok := TradeInverse(ledger, session, o, legs);
  }

  /** One session in the engine's order.  It stops before the year-end taxes exactly when a needed inverse close is
      missing; no ledger call on the way is refused. */
  method RunSession(ledger: Ledger, d: Day, carryUnfilled: bool, ghost legs: set<string>) returns (ok: bool)
    requires Sound(ledger.View()) && DayOk(d, legs) && HeldNames(ledger.View()) <= legs
    modifies ledger
    ensures ok <==> !Stuck(old(ledger.View()), d, legs)
    ensures ok ==> ledger.View() == AfterSession(old(ledger.View()), d, legs)
    ensures !ok ==> d.overlay.Some?
    ensures !ok ==>
      ledger.View() == BeforeInverse(BeforeOverlay(old(ledger.View()), d, legs), d.session, d.overlay.value, legs)
  {
    ghost var a := ledger.View();
    EventsAreSafe(a, d, legs);
    OrdersAreSafe(AfterEvents(a, d), d, legs);
    ApplyEvents(ledger, d, legs);
    var sells, buys := ApplyOrders(ledger, d, carryUnfilled, legs);
    if d.overlay.Some? {
      ok := ApplyOverlay(ledger, d.session, d.overlay.value, legs);
      if !ok {
        return;
      }
    }
    SettleYearEnd(ledger, d);
    ok := true;
  }

  method SettleYearEnd(ledger: Ledger, d: Day)
    modifies ledger
    ensures ledger.View() == AfterYearEnd(old(ledger.View()), d)
  {
    if d.yearEnd {
      if d.cashReturn.Some? {
        ledger.SettleCashYieldTax(d.session, d.costs);
      }
      if d.overlay.Some? {
        ledger.SettleFuturesTax(d.session, d.overlay.value.primary.config);
      }
    }
  }
}
