/** A session of the engine seen from outside: what it makes of the futures legs, their margin and the inverse ETF. */
module SessionMeaning {
  import opened Rounding
  import opened Overlay
  import opened Exposure
  import opened Accounts
  import opened NameOrder
  import opened Fills
  import opened FillMeaning
  import opened SyncTheory
  import opened SyncFutures
  import opened OverlaySync
  import opened Engine
  import opened EventMeaning
  import opened Costs
  import opened Sorting
  import opened OverlayMeaning

  // ----- variation and roll -----

  /** The change of the floored mark of `k` contracts between the two closes. */
  function VariationOf(m: Market, prev: real, k: int): int {
    FlooredMark(k, m.config.multiplier, m.level) - FlooredMark(k, m.config.multiplier, prev)
  }

  /** Both sides of a roll of `k` contracts, at the cost rate on the exposure. */
  function RollOf(m: Market, k: int): int {
    Ceil(2.0 * m.config.futuresCostRate * ExposureOf(m.config, m.level, k))
  }

  function VariationAt(o: OverlayDay, h: string -> int): string -> int {
    name => VariationOf(MarketOf(o, name), PrevOf(o, name), h(name))
  }

  function RollAt(o: OverlayDay, h: string -> int): string -> int {
    name => RollOf(MarketOf(o, name), h(name))
  }

  /** A flat leg has nothing to mark and nothing to roll. */
  lemma FlatLeg(m: Market, prev: real)
    ensures VariationOf(m, prev, 0) == 0 && RollOf(m, 0) == 0
  {
    var x := m.config.multiplier;
    assert 0 * x == 0;
    assert (0 * x) as real * m.level == 0.0 && (0 * x) as real * prev == 0.0;
    assert ExposureOf(m.config, m.level, 0) == 0.0;
  }

  /** Margin when the overlay trade starts: every leg's variation is in, and at an expiry every roll is paid. */
  ghost function MarginAtClose(a: Account, o: OverlayDay): int {
    a.margin + Total(LegList(o), VariationAt(o, Counts(a))) -
    (if o.expiry then Total(LegList(o), RollAt(o, Counts(a))) else 0)
  }

  /** From `a` to `b` only margin moved, by the amount; the tax base of the futures and the journal may have. */
  ghost predicate OnlyMargin(a: Account, b: Account, amount: int) {
    b == a.(margin := a.margin + amount, ytdFuturesPnl := b.ytdFuturesPnl, journal := b.journal)
  }

  lemma {:induction false} TotalLast(names: seq<string>, name: string, f: string -> int)
    ensures Total(names + [name], f) == Total(names, f) + f(name)
  {
    if names == [] {
      assert [name][1..] == [] && [] + [name] == [name];
    } else {
      assert (names + [name])[1..] == names[1..] + [name];
      TotalLast(names[1..], name, f);
    }
  }

  lemma {:induction false} TotalKept(names: seq<string>, keep: set<string>, f: string -> int)
    requires forall name | name in names && name !in keep :: f(name) == 0
    ensures Total(KeepNames(names, keep), f) == Total(names, f)
  {
    if names != [] {
      assert names[0] in names;
      TotalKept(names[1..], keep, f);
      if names[0] in keep {
        assert KeepNames(names, keep)[1..] == KeepNames(names[1..], keep);
      }
    }
  }

  lemma SettleMargin(a: Account, s: int, m: Market, prev: real, leg: string)
    ensures OnlyMargin(a, VariationSettled(a, s, prev, m.level, m.config.multiplier, leg),
      VariationOf(m, prev, LegContracts(a, leg)))
  {
    FlatLeg(m, prev);
  }

  lemma {:induction false} LegsSettledMargin(a: Account, s: int, names: seq<string>, o: OverlayDay, legs: set<string>)
    requires OverlayOk(o, legs) && forall name | name in names :: name in legs
    ensures OnlyMargin(a, LegsSettled(a, s, names, o), Total(names, VariationAt(o, Counts(a))))
  {
    if names != [] {
      var n := |names| - 1;
      var before, name := LegsSettled(a, s, names[..n], o), names[n];
      assert names == names[..n] + [name] && name in names;
      LegsSettledMargin(a, s, names[..n], o, legs);
      TotalLast(names[..n], name, VariationAt(o, Counts(a)));
      SettleMargin(before, s, o.legMarkets[name], o.prevLegLevels[name], name);
      assert LegContracts(before, name) == LegContracts(a, name);
    }
  }

  lemma {:induction false} TotalSame(names: seq<string>, f: string -> int, g: string -> int)
    requires forall name | name in names :: f(name) == g(name)
    ensures Total(names, f) == Total(names, g)
  {
    if names != [] {
      assert names[0] in names;
      TotalSame(names[1..], f, g);
    }
  }

  /** Only held legs contribute. */
  lemma HeldTotal(a: Account, o: OverlayDay, legs: set<string>, f: string -> int)
    requires o.legMarkets.Keys == legs && HeldNames(a) <= legs
    requires forall name | LegContracts(a, name) == 0 :: f(name) == 0
    requires PRIMARY_LEG !in legs
    ensures Total(LegList(o), f) == f(PRIMARY_LEG) + Total(Ascending(HeldNames(a)), f)
  {
    AscendingOfSubset(legs, HeldNames(a));
    forall name | name in Ascending(legs) && name !in HeldNames(a) ensures f(name) == 0 {
      assert LegContracts(a, name) == 0;
    }
    TotalKept(Ascending(legs), HeldNames(a), f);
    assert LegList(o)[1..] == Ascending(legs);
  }

  lemma VariationMargin(a: Account, s: int, o: OverlayDay, legs: set<string>)
    requires OverlayOk(o, legs) && HeldNames(a) <= legs && PRIMARY_LEG !in a.secondary
    ensures OnlyMargin(a, AfterVariation(a, s, o), Total(LegList(o), VariationAt(o, Counts(a))))
  {
    var f, held := VariationAt(o, Counts(a)), Ascending(HeldNames(a));
    var b := VariationSettled(a, s, o.prevLevel, o.primary.level, o.primary.config.multiplier, PRIMARY_LEG);
    SettleMargin(a, s, o.primary, o.prevLevel, PRIMARY_LEG);
    assert OnlyMargin(a, b, f(PRIMARY_LEG));
    LegsSettledMargin(b, s, held, o, legs);
    SameRolls(a, b, o, held);
    forall name | LegContracts(a, name) == 0 ensures f(name) == 0 {
      FlatLeg(MarketOf(o, name), PrevOf(o, name));
    }
    HeldTotal(a, o, legs, f);
  }

  lemma RollCost(m: Market, k: int)
    requires m.Valid()
    ensures Commission(CostUnit(2.0 * m.config.futuresCostRate, m.config.multiplier, m.level), k) == RollOf(m, k) >= 0
  {
    var rate, x := 2.0 * m.config.futuresCostRate, m.config.multiplier as real;
    ExposureIsProduct(m.config, m.level, k);
    RateOfExposure(rate, Abs(k) as real, x, m.level);
    MulNonNegative(rate, x);
    MulNonNegative(rate * x, m.level);
    CommissionNonNegative(rate * x * m.level, k);
  }

  lemma RollMargin(a: Account, s: int, m: Market, leg: string)
    requires m.Valid()
    ensures OnlyMargin(a, RolledAt(a, s, m, leg), -RollOf(m, LegContracts(a, leg)))
  {
    RollCost(m, LegContracts(a, leg));
    FlatLeg(m, m.level);
  }

  lemma {:induction false} LegsRolledMargin(a: Account, s: int, names: seq<string>, o: OverlayDay, legs: set<string>)
    requires OverlayOk(o, legs) && forall name | name in names :: name in legs
    ensures OnlyMargin(a, LegsRolled(a, s, names, o), -Total(names, RollAt(o, Counts(a))))
  {
    if names != [] {
      var n := |names| - 1;
      var before := LegsRolled(a, s, names[..n], o);
      assert names == names[..n] + [names[n]] && names[n] in names;
      LegsRolledMargin(a, s, names[..n], o, legs);
      TotalLast(names[..n], names[n], RollAt(o, Counts(a)));
      RollMargin(before, s, o.legMarkets[names[n]], names[n]);
      assert LegContracts(before, names[n]) == LegContracts(a, names[n]);
    }
  }

  /** Accounts with the same legs have the same amounts. */
  lemma SameRolls(a: Account, b: Account, o: OverlayDay, names: seq<string>)
    requires b.contracts == a.contracts && b.secondary == a.secondary
    ensures Total(names, RollAt(o, Counts(b))) == Total(names, RollAt(o, Counts(a)))
    ensures Total(names, VariationAt(o, Counts(b))) == Total(names, VariationAt(o, Counts(a)))
  {
    forall name ensures Counts(b)(name) == Counts(a)(name) {
    }
    TotalSame(names, RollAt(o, Counts(b)), RollAt(o, Counts(a)));
    TotalSame(names, VariationAt(o, Counts(b)), VariationAt(o, Counts(a)));
  }

  lemma RollsMargin(a: Account, s: int, o: OverlayDay, legs: set<string>)
    requires OverlayOk(o, legs) && HeldNames(a) <= legs && PRIMARY_LEG !in a.secondary && o.expiry
    ensures OnlyMargin(a, AfterRoll(a, s, o), -Total(LegList(o), RollAt(o, Counts(a))))
  {
    var f, held := RollAt(o, Counts(a)), Ascending(HeldNames(a));
    var b := RolledAt(a, s, o.primary, PRIMARY_LEG);
    RollMargin(a, s, o.primary, PRIMARY_LEG);
    LegsRolledMargin(b, s, held, o, legs);
    SameRolls(a, b, o, held);
    forall name | LegContracts(a, name) == 0 ensures f(name) == 0 {
      FlatLeg(MarketOf(o, name), PrevOf(o, name));
    }
    HeldTotal(a, o, legs, f);
  }

  lemma OnlyMarginChains(a: Account, b: Account, c: Account, x: int, y: int)
    requires OnlyMargin(a, b, x) && OnlyMargin(b, c, y)
    ensures OnlyMargin(a, c, x + y)
  {
  }

  lemma OnlyMarginReady(a: Account, c: Account, x: int, o: OverlayDay, legs: set<string>)
    requires OnlyMargin(a, c, x) && Ready(a, o, legs)
    ensures Ready(c, o, legs) && HeldNames(c) == HeldNames(a)
  {
  }

  /** Variation and roll move margin alone, to the margin at the close. */
  lemma CloseMeans(a: Account, s: int, o: OverlayDay, legs: set<string>)
    requires Ready(a, o, legs)
    ensures Ready(AfterVariation(a, s, o), o, legs)
    ensures var c := AfterRoll(AfterVariation(a, s, o), s, o);
      OnlyMargin(a, c, MarginAtClose(a, o) - a.margin) && Ready(c, o, legs)
  {
    var b := AfterVariation(a, s, o);
    var x := Total(LegList(o), VariationAt(o, Counts(a)));
    VariationMargin(a, s, o, legs);
    OnlyMarginReady(a, b, x, o, legs);
    if o.expiry {
      var y := Total(LegList(o), RollAt(o, Counts(a)));
      SameRolls(a, b, o, LegList(o));
      RollsMargin(b, s, o, legs);
      OnlyMarginChains(a, b, AfterRoll(b, s, o), x, -y);
      OnlyMarginReady(b, AfterRoll(b, s, o), -y, o, legs);
    }
  }

  // ----- the overlay of a session -----

  /** The account the overlay starts from has the legs of the session's start. */
  lemma LegsUntilOverlay(a: Account, d: Day, legs: set<string>)
    requires Sound(a) && DayOk(d, legs) && HeldNames(a) <= legs
    ensures var b := BeforeOverlay(a, d, legs); b.contracts == a.contracts && b.secondary == a.secondary
  {
    EventsAreSafe(a, d, legs);
    OrdersAreSafe(AfterEvents(a, d), d, legs);
  }

  /** After the overlay trade neither the inverse ETF nor the year-end taxes move a leg. */
  lemma LegsAfterTrade(a: Account, d: Day, legs: set<string>)
    requires Sound(a) && DayOk(d, legs) && HeldNames(a) <= legs && d.overlay.Some?
    ensures var e := BeforeInverse(BeforeOverlay(a, d, legs), d.session, d.overlay.value, legs);
      AfterSession(a, d, legs).contracts == e.contracts && AfterSession(a, d, legs).secondary == e.secondary
  {
    var b, s, o := BeforeOverlay(a, d, legs), d.session, d.overlay.value;
    var e := BeforeInverse(b, s, o, legs);
    TradeIsSound(b, s, o, legs);
    InverseIsSafe(e, s, o, legs);
    YearEndIsSafe(AfterInversePhase(e, s, o), d, legs);
  }

  lemma TradeIsSound(b: Account, s: int, o: OverlayDay, legs: set<string>)
    requires Sound(b) && OverlayOk(o, legs) && HeldNames(b) <= legs
    ensures Sound(BeforeInverse(b, s, o, legs))
  {
    VariationSafely(b, s, o, legs);
    RollSafely(AfterVariation(b, s, o), s, o, legs);
    var c := AfterRoll(AfterVariation(b, s, o), s, o);
    PendingValid(c, o, legs);
    LegsOfValid(PendingInstruction(c, o), c);
    SyncIsSafe(c, s, LegsOf(PendingInstruction(c, o), c));
  }

  /** The overlay trade of a session starts at the close from unchanged legs and unchanged cash. */
  lemma TradeStarts(b: Account, s: int, o: OverlayDay, legs: set<string>) returns (c: Account)
    requires Sound(b) && OverlayOk(o, legs) && HeldNames(b) <= legs
    ensures Ready(c, o, legs) && c.margin == MarginAtClose(b, o)
    ensures c.cash == b.cash && c.taxPayable == b.taxPayable && c.contracts == b.contracts && c.secondary == b.secondary
    ensures BeforeInverse(b, s, o, legs) == Traded(c, s, o, legs)
  {
    CloseMeans(b, s, o, legs);
    c := AfterRoll(AfterVariation(b, s, o), s, o);
  }

  lemma SameReserves(a: Account, b: Account, o: OverlayDay)
    requires b.contracts == a.contracts && b.secondary == a.secondary
    ensures Reserves(o, Counts(b)) == Reserves(o, Counts(a))
  {
    TotalSame(LegList(o), ReserveAt(o, Counts(b)), ReserveAt(o, Counts(a)));
  }

  lemma SameFloors(a: Account, b: Account, o: OverlayDay)
    requires b.contracts == a.contracts && b.secondary == a.secondary
    ensures Floors(o, Counts(b)) == Floors(o, Counts(a))
  {
    TotalSame(LegList(o), FloorAt(o, Counts(b)), FloorAt(o, Counts(a)));
  }

  lemma SameCommissions(a: Account, b: Account, o: OverlayDay, w: string -> int)
    requires b.contracts == a.contracts && b.secondary == a.secondary
    ensures Commissions(o, Counts(b), w) == Commissions(o, Counts(a), w)
  {
    TotalSame(LegList(o), CostAt(o, Counts(b), w), CostAt(o, Counts(a), w));
  }

  /** The trade of a session, from the legs of its start to the legs of its end. */
  lemma SessionTrade(a: Account, d: Day, legs: set<string>) returns (c: Account)
    requires Sound(a) && DayOk(d, legs) && HeldNames(a) <= legs && d.overlay.Some?
    ensures var b, o := BeforeOverlay(a, d, legs), d.overlay.value;
      && Ready(c, o, legs) && c.margin == MarginAtClose(b, o) && c.cash == b.cash && c.taxPayable == b.taxPayable
      && c.contracts == a.contracts && c.secondary == a.secondary
      && Reserves(o, Counts(c)) == Reserves(o, Counts(a)) && Floors(o, Counts(c)) == Floors(o, Counts(a))
      && BeforeInverse(b, d.session, o, legs) == Traded(c, d.session, o, legs)
    ensures var e := Traded(c, d.session, d.overlay.value, legs);
      AfterSession(a, d, legs).contracts == e.contracts && AfterSession(a, d, legs).secondary == e.secondary
  {
    var b, s, o := BeforeOverlay(a, d, legs), d.session, d.overlay.value;
    LegsUntilOverlay(a, d, legs);
    c := TradeStarts(b, s, o, legs);
    SameReserves(a, c, o);
    SameFloors(a, c, o);
    LegsAfterTrade(a, d, legs);
  }

  lemma HoldsItsOwn(c: Account, legs: set<string>)
    requires HeldNames(c) <= legs
    ensures Holding(c, Counts(c), legs)
  {
    forall name | name != PRIMARY_LEG && name !in legs ensures LegContracts(c, name) == 0 {
      assert name !in HeldNames(c);
    }
  }

  /** Without a pending target and with margin at the close of at least the floors of what is held, every leg holds
      after the session what it held before, and only margin above the reserves is released. */
  lemma SessionKeepsHedge(a: Account, d: Day, legs: set<string>)
    requires Sound(a) && DayOk(d, legs) && HeldNames(a) <= legs
    requires d.overlay.Some? && d.overlay.value.target.None?
    requires Floors(d.overlay.value, Counts(a)) <= MarginAtClose(BeforeOverlay(a, d, legs), d.overlay.value)
    ensures forall name: string :: LegContracts(AfterSession(a, d, legs), name) == LegContracts(a, name)
    ensures var b, o := BeforeOverlay(a, d, legs), d.overlay.value;
      BeforeInverse(b, d.session, o, legs).margin == Min(MarginAtClose(b, o), Reserves(o, Counts(a)))
  {
    var s, o := d.session, d.overlay.value;
    var c := SessionTrade(a, d, legs);
    HoldsItsOwn(c, legs);
    BandKeeps(c, s, o, legs);
    HoldingBoth(c, Traded(c, s, o, legs), Counts(c), legs);
  }

  lemma HoldingBoth(c: Account, e: Account, w: string -> int, legs: set<string>)
    requires Holding(c, w, legs) && Holding(e, w, legs)
    ensures forall name: string :: LegContracts(e, name) == LegContracts(c, name)
  {
  }

  lemma {:induction false} NoMoveNoCost(o: OverlayDay, h: string -> int, names: seq<string>)
    ensures Total(names, CostAt(o, h, h)) == 0
  {
    if names != [] {
      var m := MarketOf(o, names[0]);
      assert ExposureOf(m.config, m.level, 0) == 0.0 by {
        assert (0 * m.config.multiplier) as real * m.level == 0.0;
      }
      NoMoveNoCost(o, h, names[1..]);
    }
  }

  /** The margin call: without a pending target, margin at the close below the floors, and free cash enough to make
      it up, every leg is kept and the pool ends at the reserves. */
  lemma SessionTopsUp(a: Account, d: Day, legs: set<string>)
    requires Sound(a) && DayOk(d, legs) && HeldNames(a) <= legs
    requires d.overlay.Some? && d.overlay.value.target.None?
    requires var b, o := BeforeOverlay(a, d, legs), d.overlay.value;
      && MarginAtClose(b, o) < Floors(o, Counts(a))
      && Reserves(o, Counts(a)) <= MarginAtClose(b, o) + Max(b.cash - b.taxPayable, 0)
    ensures forall name: string :: LegContracts(AfterSession(a, d, legs), name) == LegContracts(a, name)
    ensures var b, o := BeforeOverlay(a, d, legs), d.overlay.value;
      BeforeInverse(b, d.session, o, legs).margin == Reserves(o, Counts(a))
  {
    var s, o := d.session, d.overlay.value;
    var c := SessionTrade(a, d, legs);
    NoMoveNoCost(o, Counts(c), LegList(o));
    HoldsItsOwn(c, legs);
    FundsReach(c, s, o, legs);
    HoldingBoth(c, Traded(c, s, o, legs), Counts(c), legs);
  }

  /** With a pending target, and funds for the reserves of its counts and the commissions of getting there, every leg
      ends at the count the target names, or at zero where it names none. */
  lemma SessionReachesTarget(a: Account, d: Day, legs: set<string>)
    requires Sound(a) && DayOk(d, legs) && HeldNames(a) <= legs
    requires d.overlay.Some? && d.overlay.value.target.Some?
    requires var b, o := BeforeOverlay(a, d, legs), d.overlay.value;
      Reserves(o, Aims(o.target.value)) + Commissions(o, Counts(a), Aims(o.target.value))
        <= MarginAtClose(b, o) + Max(b.cash - b.taxPayable, 0)
    ensures forall name: string ::
      LegContracts(AfterSession(a, d, legs), name) == Aims(d.overlay.value.target.value)(name)
    ensures var b, o := BeforeOverlay(a, d, legs), d.overlay.value;
      var w := Aims(o.target.value);
      (Holding(a, w, legs) && Floors(o, Counts(a)) <= MarginAtClose(b, o)) ||
      BeforeInverse(b, d.session, o, legs).margin == Reserves(o, w)
  {
    var o := d.overlay.value;
    var c := SessionTrade(a, d, legs);
    SameCommissions(a, c, o, Aims(o.target.value));
    TargetTraded(c, d.session, o, legs);
    SameHolding(a, c, Aims(o.target.value), legs);
  }

  lemma SameHolding(a: Account, c: Account, w: string -> int, legs: set<string>)
    requires c.contracts == a.contracts && c.secondary == a.secondary
    ensures Holding(c, w, legs) <==> Holding(a, w, legs)
  {
    assert forall name: string :: LegContracts(c, name) == LegContracts(a, name);
  }

  lemma TargetTraded(c: Account, s: int, o: OverlayDay, legs: set<string>)
    requires Ready(c, o, legs) && o.target.Some?
    requires var w := Aims(o.target.value);
      Reserves(o, w) + Commissions(o, Counts(c), w) <= c.margin + Max(c.cash - c.taxPayable, 0)
    ensures forall name: string :: LegContracts(Traded(c, s, o, legs), name) == Aims(o.target.value)(name)
    ensures var w := Aims(o.target.value);
      (Holding(c, w, legs) && Floors(o, Counts(c)) <= c.margin) || Traded(c, s, o, legs).margin == Reserves(o, w)
  {
    FundsReach(c, s, o, legs);
    NothingElseAimed(o, legs);
  }

  lemma NothingElseAimed(o: OverlayDay, legs: set<string>)
    requires OverlayOk(o, legs) && o.target.Some?
    ensures forall name: string | name != PRIMARY_LEG && name !in legs :: Aims(o.target.value)(name) == 0
  {
  }

  /** What a session aims at: the pending target, or what is held. */
  function AimsOf(a: Account, o: OverlayDay): string -> int {
    if o.target.Some? then Aims(o.target.value) else Counts(a)
  }

  /** Whatever the funds, unless every leg stands at its aim inside the band: each leg in turn takes the largest count
      toward its aim that fits what the legs before it left. */
  lemma SessionPicks(a: Account, d: Day, legs: set<string>, n: nat)
    requires Sound(a) && DayOk(d, legs) && HeldNames(a) <= legs && d.overlay.Some? && n < |LegList(d.overlay.value)|
    requires var b, o := BeforeOverlay(a, d, legs), d.overlay.value;
      !(Holding(a, AimsOf(a, o), legs) && Floors(o, Counts(a)) <= MarginAtClose(b, o))
    ensures var b, o := BeforeOverlay(a, d, legs), d.overlay.value;
      PicksAt(o, a, AfterSession(a, d, legs), AimsOf(a, o), n, MarginAtClose(b, o) + Max(b.cash - b.taxPayable, 0),
        Floors(o, Counts(a)) <= MarginAtClose(b, o))
  {
    var o := d.overlay.value;
    var c := SessionTrade(a, d, legs);
    SameWish(a, c, o, legs);
    TradePicked(a, c, AfterSession(a, d, legs), d.session, o, legs, n);
  }

  lemma TradePicked(a: Account, c: Account, e: Account, s: int, o: OverlayDay, legs: set<string>, n: nat)
    requires Ready(c, o, legs) && n < |LegList(o)| && c.contracts == a.contracts && c.secondary == a.secondary
    requires var t := Traded(c, s, o, legs); t.contracts == e.contracts && t.secondary == e.secondary
    requires !(Holding(c, Wish(c, o), legs) && Floors(o, Counts(c)) <= c.margin)
    ensures PicksAt(o, a, e, AimsOf(a, o), n, c.margin + Max(c.cash - c.taxPayable, 0),
      Floors(o, Counts(c)) <= c.margin)
  {
    TradePicks(c, s, o, legs, n);
    SamePicks(a, c, e, Traded(c, s, o, legs), o, n, c.margin + Max(c.cash - c.taxPayable, 0),
      Floors(o, Counts(c)) <= c.margin);
  }

  lemma SameWish(a: Account, c: Account, o: OverlayDay, legs: set<string>)
    requires c.contracts == a.contracts && c.secondary == a.secondary
    ensures Holding(c, Wish(c, o), legs) <==> Holding(a, AimsOf(a, o), legs)
  {
    if o.target.Some? {
      SameHolding(a, c, Aims(o.target.value), legs);
    } else {
      assert forall name: string :: LegContracts(c, name) == LegContracts(a, name);
    }
  }

  lemma SamePicks(a: Account, c: Account, e: Account, t: Account, o: OverlayDay, n: nat, funds: int, inBand: bool)
    requires c.contracts == a.contracts && c.secondary == a.secondary
    requires t.contracts == e.contracts && t.secondary == e.secondary
    requires n < |LegList(o)| && PicksAt(o, c, t, Wish(c, o), n, funds, inBand)
    ensures PicksAt(o, a, e, AimsOf(a, o), n, funds, inBand)
  {
    TotalSame(LegList(o)[..n], SpentAt(o, Counts(c), Counts(t)), SpentAt(o, Counts(a), Counts(e)));
    assert Wish(c, o)(LegList(o)[n]) == AimsOf(a, o)(LegList(o)[n]);
  }

  // ----- the inverse ETF of a session -----

  lemma {:induction false} SellsKeepUnits(a: Account, s: int, fills: seq<Fill>, taxRates: map<int, real>,
      config: CostConfig)
    ensures AfterSells(a, s, fills, taxRates, config).inverseUnits == a.inverseUnits
    decreases |fills|
  {
    if fills != [] {
      SellsKeepUnits(a, s, fills[..|fills| - 1], taxRates, config);
    }
  }

  lemma {:induction false} BuysKeepUnits(a: Account, s: int, fills: seq<Fill>, rate: real)
    ensures AfterBuys(a, s, fills, rate).inverseUnits == a.inverseUnits
    decreases |fills|
  {
    if fills != [] {
      BuysKeepUnits(a, s, fills[..|fills| - 1], rate);
    }
  }

  /** Nothing before the inverse trade moves the units held. */
  lemma UnitsUntilTrade(a: Account, d: Day, legs: set<string>)
    requires Sound(a) && DayOk(d, legs) && HeldNames(a) <= legs && d.overlay.Some?
    ensures BeforeInverse(BeforeOverlay(a, d, legs), d.session, d.overlay.value, legs).inverseUnits == a.inverseUnits
  {
    var c := SessionTrade(a, d, legs);
    UnitsUntilOverlay(a, d, legs);
    TradeKeepsUnits(BeforeOverlay(a, d, legs), d.session, d.overlay.value, legs);
  }

  lemma UnitsUntilOverlay(a: Account, d: Day, legs: set<string>)
    requires Sound(a) && DayOk(d, legs) && HeldNames(a) <= legs
    ensures BeforeOverlay(a, d, legs).inverseUnits == a.inverseUnits
  {
    var b := AfterEvents(a, d);
    EventsKeepUnits(a, d);
    SellsKeepUnits(b, d.session, d.sells, d.taxRates, d.costs);
    BuysKeepUnits(BeforeBuys(b, d), d.session, SortBy(d.buys, LargerFirst), d.costs.commissionRate);
  }

  lemma TradeKeepsUnits(b: Account, s: int, o: OverlayDay, legs: set<string>)
    requires Sound(b) && OverlayOk(o, legs) && HeldNames(b) <= legs
    ensures BeforeInverse(b, s, o, legs).inverseUnits == b.inverseUnits
  {
    CloseMeans(b, s, o, legs);
    var c := AfterRoll(AfterVariation(b, s, o), s, o);
    TradeSetting(c, s, o, legs);
    SyncKeepsUnits(c, s, AllLegs(c, o));
  }

  lemma SyncKeepsUnits(c: Account, s: int, all: seq<Leg>)
    requires ValidLegs(all)
    ensures Sync(c, s, all).inverseUnits == c.inverseUnits
  {
    if !Holds(c, all) {
      FundFrame(c, s, all, c.margin + SpendableCash(c), InBand(c, all));
      SyncMarginMoves(Funded(c, s, all), s, all);
    }
  }

  /** Without a pending target the units are kept.  With one and a close, they are sold down to what the target value
      pays for, or bought toward it as far as the cash that no owed tax claims allows. */
  lemma SessionInverse(a: Account, d: Day, legs: set<string>)
    requires Sound(a) && DayOk(d, legs) && HeldNames(a) <= legs && d.overlay.Some?
    ensures var o, b := d.overlay.value, AfterSession(a, d, legs);
      var e := BeforeInverse(BeforeOverlay(a, d, legs), d.session, o, legs);
      && (o.target.None? ==> b.inverseUnits == a.inverseUnits)
      && (o.target.Some? && o.inversePrice.Some? ==>
          TradedToward(e, o.target.value.inverseValue, o.inversePrice.value, o.primary.config.inverseCostRate,
            b.inverseUnits))
  {
    var b, s, o := BeforeOverlay(a, d, legs), d.session, d.overlay.value;
    var e := BeforeInverse(b, s, o, legs);
    UnitsUntilTrade(a, d, legs);
    TradeIsSound(b, s, o, legs);
    PhaseTrades(e, s, o, legs);
    YearEndKeepsUnits(AfterInversePhase(e, s, o), d);
  }

  lemma YearEndKeepsUnits(a: Account, d: Day)
    ensures AfterYearEnd(a, d).inverseUnits == a.inverseUnits
  {
  }

  /** From `e` to `units`, toward what `value` pays for at the price. */
  ghost predicate TradedToward(e: Account, value: int, price: int, rate: real, units: int) {
    exists desired :: Affords(value, price, desired) &&
      if desired < e.inverseUnits then units == desired
      else BoughtToward(units - e.inverseUnits, desired - e.inverseUnits, price, rate, e.cash - e.taxPayable)
  }

  /** The most that is not above what is wanted and whose cost fits. */
  ghost predicate BoughtToward(q: int, wanted: int, price: int, rate: real, free: int) {
    && 0 <= q <= wanted && (0 < q ==> CostOfInverse(q, price, rate) <= free)
    && forall r | q < r <= wanted :: free < CostOfInverse(r, price, rate)
  }

  lemma PhaseTrades(e: Account, s: int, o: OverlayDay, legs: set<string>)
    requires Sound(e) && OverlayOk(o, legs)
    ensures var b := AfterInversePhase(e, s, o);
      && (o.target.None? ==> b.inverseUnits == e.inverseUnits)
      && (o.target.Some? && o.inversePrice.Some? ==>
          TradedToward(e, o.target.value.inverseValue, o.inversePrice.value, o.primary.config.inverseCostRate,
            b.inverseUnits))
  {
    if o.inversePrice.Some? {
      var price, config := o.inversePrice.value, o.primary.config;
      var value := if o.target.Some? then o.target.value.inverseValue else e.inverseUnits * price;
      var desired := InverseMeans(e, s, value, price, config.inverseCostRate, config.inverseTaxRate);
      if o.target.None? {
        OwnValueAffords(e.inverseUnits, price, desired);
      } else if value <= 0 && e.inverseUnits <= 0 {
        NothingAfforded(value, price, desired);
      }
    }
  }

  lemma OwnValueAffords(units: int, price: int, desired: int)
    requires 0 < price && 0 <= units && Affords(units * price, price, desired)
    ensures desired == units
  {
    if units < desired {
      IntMulMonotone(units + 1, desired, price);
    } else if desired < units {
      IntMulMonotone(desired + 1, units, price);
    }
  }

  lemma NothingAfforded(value: int, price: int, desired: int)
    requires 0 < price && value <= 0 && Affords(value, price, desired)
    ensures desired == 0
  {
    if 0 < desired {
      IntMulMonotone(1, desired, price);
    }
  }
}
