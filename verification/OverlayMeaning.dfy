/** What a session does to the futures legs and their margin, in terms of levels, rates and contract counts. */
module OverlayMeaning {
  import opened Rounding
  import opened Overlay
  import opened Exposure
  import opened FundingSearch
  import opened Accounts
  import opened LedgerInvariants
  import opened NameOrder
  import opened SyncTheory
  import opened SyncTargets
  import opened SyncFutures
  import opened OverlaySync
  import opened Engine

  // ----- amounts over all legs -----

  function MarketOf(o: OverlayDay, name: string): Market {
    if name in o.legMarkets then o.legMarkets[name] else o.primary
  }

  function PrevOf(o: OverlayDay, name: string): real {
    if name in o.prevLegLevels then o.prevLegLevels[name] else o.prevLevel
  }

  /** The primary leg and every leg with a market, in ascending order of names. */
  ghost function LegList(o: OverlayDay): seq<string> {
    [PRIMARY_LEG] + Ascending(o.legMarkets.Keys)
  }

  function Total(names: seq<string>, f: string -> int): int {
    if names == [] then 0 else f(names[0]) + Total(names[1..], f)
  }

  /** Contract counts by leg: those of an account, and those a target names. */
  function Counts(a: Account): string -> int {
    name => LegContracts(a, name)
  }

  function Aims(t: OverlayTarget): string -> int {
    name => if name == PRIMARY_LEG then t.contracts else if name in t.legs then t.legs[name] else 0
  }

  function ReserveAt(o: OverlayDay, h: string -> int): string -> int {
    name => ReserveKrw(MarketOf(o, name).config, MarketOf(o, name).level, h(name))
  }

  function FloorAt(o: OverlayDay, h: string -> int): string -> int {
    name => FloorKrw(MarketOf(o, name).config, MarketOf(o, name).level, h(name))
  }

  function CostAt(o: OverlayDay, h: string -> int, w: string -> int): string -> int {
    name => CostKrw(MarketOf(o, name).config, MarketOf(o, name).level, w(name) - h(name))
  }

  ghost function Reserves(o: OverlayDay, h: string -> int): int {
    Total(LegList(o), ReserveAt(o, h))
  }

  ghost function Floors(o: OverlayDay, h: string -> int): int {
    Total(LegList(o), FloorAt(o, h))
  }

  ghost function Commissions(o: OverlayDay, h: string -> int, w: string -> int): int {
    Total(LegList(o), CostAt(o, h, w))
  }

  // ----- the legs of a synchronisation, flat ones included -----

  ghost predicate Matches(o: OverlayDay, names: seq<string>, w: string -> int, legs: seq<Leg>) {
    |legs| == |names| && forall n | 0 <= n < |names| ::
      MarketOf(o, names[n]).Valid() && legs[n] == Leg(names[n], MarketOf(o, names[n]).UnitsHere(), w(names[n]))
  }

  lemma MatchesTail(o: OverlayDay, names: seq<string>, w: string -> int, legs: seq<Leg>)
    requires Matches(o, names, w, legs) && names != []
    ensures Matches(o, names[1..], w, legs[1..])
    ensures legs[0] == Leg(names[0], MarketOf(o, names[0]).UnitsHere(), w(names[0]))
  {
  }

  lemma {:induction false} SumsAreTotals(a: Account, o: OverlayDay, names: seq<string>, w: string -> int,
      legs: seq<Leg>)
    requires Matches(o, names, w, legs)
    ensures SumReserve(a, legs) == Total(names, ReserveAt(o, Counts(a)))
    ensures SumFloor(a, legs) == Total(names, FloorAt(o, Counts(a)))
  {
    if names != [] {
      var m, k := MarketOf(o, names[0]), LegContracts(a, names[0]);
      MatchesTail(o, names, w, legs);
      AmountsOfExposure(m.config, m.level, k);
      SumsAreTotals(a, o, names[1..], w, legs[1..]);
    }
  }

  lemma {:induction false} TargetsAreTotals(a: Account, o: OverlayDay, names: seq<string>, w: string -> int,
      legs: seq<Leg>)
    requires Matches(o, names, w, legs)
    ensures TargetReserve(legs) == Total(names, ReserveAt(o, w))
    ensures TargetCost(a, legs) == Total(names, CostAt(o, Counts(a), w))
  {
    if names != [] {
      var m, k := MarketOf(o, names[0]), w(names[0]);
      MatchesTail(o, names, w, legs);
      AmountsOfExposure(m.config, m.level, k);
      AmountsOfExposure(m.config, m.level, k - LegContracts(a, names[0]));
      TargetsAreTotals(a, o, names[1..], w, legs[1..]);
    }
  }

  /** What the engine aims at: the pending target, or what is held. */
  function Wish(c: Account, o: OverlayDay): string -> int {
    if o.target.Some? then Aims(o.target.value) else Counts(c)
  }

  ghost function AllLegs(c: Account, o: OverlayDay): seq<Leg>
    requires forall name | name in Ascending(o.legMarkets.Keys) :: name in PendingInstruction(c, o).legUnits
  {
    [PrimaryLeg(PendingInstruction(c, o))] + SecondaryLegs(PendingInstruction(c, o), Ascending(o.legMarkets.Keys))
  }

  lemma SecondaryMatches(c: Account, o: OverlayDay, legs: set<string>, name: string)
    requires OverlayOk(o, legs) && HeldNames(c) <= legs && PRIMARY_LEG !in c.secondary && name in legs
    ensures MarketOf(o, name).Valid()
    ensures SecondaryLeg(PendingInstruction(c, o), name)
         == Leg(name, MarketOf(o, name).UnitsHere(), Wish(c, o)(name))
  {
    assert name in o.legMarkets;
  }

  lemma MatchesCons(o: OverlayDay, name: string, names: seq<string>, w: string -> int, leg: Leg, legs: seq<Leg>)
    requires Matches(o, names, w, legs) && MarketOf(o, name).Valid()
    requires leg == Leg(name, MarketOf(o, name).UnitsHere(), w(name))
    ensures Matches(o, [name] + names, w, [leg] + legs)
  {
  }

  lemma SecondariesMatch(c: Account, o: OverlayDay, legs: set<string>)
    requires OverlayOk(o, legs) && HeldNames(c) <= legs && PRIMARY_LEG !in c.secondary
    ensures var names := Ascending(o.legMarkets.Keys);
      Matches(o, names, Wish(c, o), SecondaryLegs(PendingInstruction(c, o), names))
  {
    var names := Ascending(o.legMarkets.Keys);
    forall n | 0 <= n < |names|
      ensures MarketOf(o, names[n]).Valid()
      ensures SecondaryLeg(PendingInstruction(c, o), names[n])
           == Leg(names[n], MarketOf(o, names[n]).UnitsHere(), Wish(c, o)(names[n]))
    {
      assert names[n] in names;
      SecondaryMatches(c, o, legs, names[n]);
    }
  }

  lemma AllLegsMatch(c: Account, o: OverlayDay, legs: set<string>)
    requires OverlayOk(o, legs) && HeldNames(c) <= legs && PRIMARY_LEG !in c.secondary
    ensures Matches(o, LegList(o), Wish(c, o), AllLegs(c, o))
  {
    var names, i := Ascending(o.legMarkets.Keys), PendingInstruction(c, o);
    SecondariesMatch(c, o, legs);
    MatchesCons(o, PRIMARY_LEG, names, Wish(c, o), PrimaryLeg(i), SecondaryLegs(i, names));
  }

  /** Synchronising the targeted and held legs is synchronising all of them. */
  lemma SyncOverAll(c: Account, s: int, o: OverlayDay, legs: set<string>)
    requires Consistent(c) && OverlayOk(o, legs) && HeldNames(c) <= legs
    ensures var i := PendingInstruction(c, o);
      && i.Valid() && Covers(i, c) && ValidLegs(AllLegs(c, o))
      && Sync(c, s, LegsOf(i, c)) == Sync(c, s, AllLegs(c, o))
  {
    var i := PendingInstruction(c, o);
    PendingValid(c, o, legs);
    ListedLegsValid(i, Ascending(legs));
    AscendingOfSubset(legs, LegNamesOf(i, c));
    LaterListed(i, c, Ascending(legs), Ascending(LegNamesOf(i, c)));
    DroppingKeepsSync(c, s, AllLegs(c, o), {PRIMARY_LEG} + LegNamesOf(i, c));
  }

  // ----- where the overlay trade ends -----

  /** The account when the overlay trade starts; its spendable cash is what no owed tax claims. */
  ghost predicate Ready(c: Account, o: OverlayDay, legs: set<string>) {
    Consistent(c) && OverlayOk(o, legs) && HeldNames(c) <= legs
  }

  ghost function Traded(c: Account, s: int, o: OverlayDay, legs: set<string>): Account
    requires Ready(c, o, legs)
  {
    PendingValid(c, o, legs);
    Sync(c, s, LegsOf(PendingInstruction(c, o), c))
  }

  /** Every leg, known or not, holds the wished count. */
  ghost predicate Holding(b: Account, w: string -> int, legs: set<string>) {
    forall name: string :: LegContracts(b, name) == if name == PRIMARY_LEG || name in legs then w(name) else 0
  }

  lemma AtTargetHolds(c: Account, s: int, o: OverlayDay, legs: set<string>)
    requires Ready(c, o, legs) && PRIMARY_LEG !in c.secondary
    requires Matches(o, LegList(o), Wish(c, o), AllLegs(c, o)) && ValidLegs(AllLegs(c, o))
    requires AllAtTarget(Sync(c, s, AllLegs(c, o)), AllLegs(c, o))
    ensures Holding(Sync(c, s, AllLegs(c, o)), Wish(c, o), legs)
  {
    var all, list, w := AllLegs(c, o), LegList(o), Wish(c, o);
    var b := Sync(c, s, all);
    SyncConserves(c, s, all);
    forall name: string
      ensures LegContracts(b, name) == if name == PRIMARY_LEG || name in legs then w(name) else 0
    {
      if name == PRIMARY_LEG || name in legs {
        InsideNames(b, o, list, w, all, name);
      } else {
        OutsideNames(o, list, w, all, name);
        assert name !in HeldNames(c);
      }
    }
  }

  lemma InsideNames(b: Account, o: OverlayDay, names: seq<string>, w: string -> int, legs: seq<Leg>, name: string)
    requires Matches(o, names, w, legs) && AllAtTarget(b, legs) && name in names
    ensures LegContracts(b, name) == w(name)
  {
    var n :| 0 <= n < |names| && names[n] == name;
    assert legs[n] in legs;
  }

  lemma OutsideNames(o: OverlayDay, names: seq<string>, w: string -> int, legs: seq<Leg>, name: string)
    requires Matches(o, names, w, legs) && name !in names
    ensures name !in Names(legs)
  {
  }

  /** Legs at their wish inside the band are kept; only margin above the reserve is released. */
  lemma BandKeeps(c: Account, s: int, o: OverlayDay, legs: set<string>)
    requires Ready(c, o, legs) && Holding(c, Wish(c, o), legs) && Floors(o, Counts(c)) <= c.margin
    ensures Holding(Traded(c, s, o, legs), Wish(c, o), legs)
    ensures Traded(c, s, o, legs).margin == Min(c.margin, Reserves(o, Counts(c)))
  {
    var all := AllLegs(c, o);
    TradeSetting(c, s, o, legs);
    SumsAreTotals(c, o, LegList(o), Wish(c, o), all);
    HeldStays(c, s, all);
    AtTargetHolds(c, s, o, legs);
  }

  lemma WishIsHeld(c: Account, o: OverlayDay, legs: set<string>)
    requires Ready(c, o, legs) && Matches(o, LegList(o), Wish(c, o), AllLegs(c, o))
    ensures AllAtTarget(c, AllLegs(c, o)) <==> Holding(c, Wish(c, o), legs)
  {
    if AllAtTarget(c, AllLegs(c, o)) {
      TargetIsWish(c, o, legs, AllLegs(c, o), Wish(c, o));
    }
    if Holding(c, Wish(c, o), legs) {
      WishIsTarget(c, o, legs, AllLegs(c, o), Wish(c, o));
    }
  }

  lemma TargetIsWish(c: Account, o: OverlayDay, legs: set<string>, all: seq<Leg>, w: string -> int)
    requires Ready(c, o, legs) && Matches(o, LegList(o), w, all) && AllAtTarget(c, all)
    ensures Holding(c, w, legs)
  {
    forall name: string
      ensures LegContracts(c, name) == if name == PRIMARY_LEG || name in legs then w(name) else 0
    {
      if name == PRIMARY_LEG || name in legs {
        InsideNames(c, o, LegList(o), w, all, name);
      } else {
        assert name !in HeldNames(c);
      }
    }
  }

  lemma WishIsTarget(c: Account, o: OverlayDay, legs: set<string>, all: seq<Leg>, w: string -> int)
    requires Ready(c, o, legs) && Matches(o, LegList(o), w, all) && Holding(c, w, legs)
    ensures AllAtTarget(c, all)
  {
    var list := LegList(o);
    forall l | l in all ensures l.target == Held(c, l) {
      var n :| 0 <= n < |all| && all[n] == l;
      assert list[n] in list;
    }
  }

  /** With funds for every reserve and commission the wish is reached; unless it stood there inside the band already,
      the pool ends at its reserve. */
  lemma FundsReach(c: Account, s: int, o: OverlayDay, legs: set<string>)
    requires Ready(c, o, legs)
    requires Reserves(o, Wish(c, o)) + Commissions(o, Counts(c), Wish(c, o)) <= c.margin + Max(c.cash - c.taxPayable, 0)
    ensures Holding(Traded(c, s, o, legs), Wish(c, o), legs)
    ensures !(Holding(c, Wish(c, o), legs) && Floors(o, Counts(c)) <= c.margin) ==>
      Traded(c, s, o, legs).margin == Reserves(o, Wish(c, o))
  {
    var all := AllLegs(c, o);
    TradeSetting(c, s, o, legs);
    TargetsAreTotals(c, o, LegList(o), Wish(c, o), all);
    SyncReaches(c, s, all);
    AtTargetHolds(c, s, o, legs);
  }

  // ----- when funds are short -----

  /** Reserve of `k` contracts and commission of getting there. */
  function SpentOn(m: Market, prior: int, k: int): int {
    ReserveKrw(m.config, m.level, k) + CostKrw(m.config, m.level, k - prior)
  }

  function SpentAt(o: OverlayDay, h: string -> int, k: string -> int): string -> int {
    name => SpentOn(MarketOf(o, name), h(name), k(name))
  }

  /** With `left` to spend, a leg at its aim inside the band is kept.  Any other takes a count between flat and its aim
      whose reserve and commission fit, or none, and those of every larger count do not fit. */
  ghost predicate Picks(m: Market, aim: int, prior: int, k: int, left: int, inBand: bool) {
    if inBand && aim == prior then k == prior
    else
      && Between(k, aim)
      && (k == 0 || SpentOn(m, prior, k) <= left)
      && forall j {:trigger Between(j, aim)} | Between(j, aim) && Abs(k) < Abs(j) :: left < SpentOn(m, prior, j)
  }

  /** Leg `n` of the list picks toward its wish out of what the legs before it left of `funds`. */
  ghost predicate PicksAt(o: OverlayDay, c: Account, e: Account, w: string -> int, n: nat, funds: int, inBand: bool)
    requires n < |LegList(o)|
  {
    var name := LegList(o)[n];
    Picks(MarketOf(o, name), w(name), LegContracts(c, name), LegContracts(e, name),
      funds - Total(LegList(o)[..n], SpentAt(o, Counts(c), Counts(e))), inBand)
  }

  lemma SpentAmounts(l: Leg, m: Market, prior: int, k: int)
    requires m.Valid() && l.units == m.UnitsHere()
    ensures Reserve(l.units, k) + Commission(l.units.cost, k - prior) == SpentOn(m, prior, k)
  {
    AmountsOfExposure(m.config, m.level, k);
    AmountsOfExposure(m.config, m.level, k - prior);
  }

  lemma GreedyPicks(l: Leg, m: Market, prior: int, k: int, left: int, inBand: bool)
    requires m.Valid() && l.units == m.UnitsHere() && GreedyFrom(l, prior, k, left, inBand)
    ensures Picks(m, l.target, prior, k, left, inBand)
  {
    SpentAmounts(l, m, prior, k);
    if !(inBand && l.target == prior) {
      forall j | Between(j, l.target) && Abs(k) < Abs(j) ensures left < SpentOn(m, prior, j) {
        SpentAmounts(l, m, prior, j);
      }
    }
  }

  lemma {:induction false} SpentIsTotal(a: Account, b: Account, o: OverlayDay, names: seq<string>, w: string -> int,
      legs: seq<Leg>, n: nat)
    requires Matches(o, names, w, legs) && n <= |names|
    ensures Spent(a, b, legs, n) == Total(names[..n], SpentAt(o, Counts(a), Counts(b)))
    decreases n
  {
    if n != 0 {
      var name := names[0];
      MatchesTail(o, names, w, legs);
      SpentAmounts(legs[0], MarketOf(o, name), LegContracts(a, name), LegContracts(b, name));
      SpentIsTotal(a, b, o, names[1..], w, legs[1..], n - 1);
      assert names[..n][1..] == names[1..][..n - 1] && names[..n][0] == name;
    }
  }

  lemma ChosenPicks(c: Account, e: Account, o: OverlayDay, w: string -> int, all: seq<Leg>, n: nat, funds: int,
      inBand: bool)
    requires Matches(o, LegList(o), w, all) && n < |all| && ChosenAt(c, e, all, n, funds, inBand)
    ensures PicksAt(o, c, e, w, n, funds, inBand)
  {
    var list := LegList(o);
    SpentIsTotal(c, e, o, list, w, all, n);
    GreedyPicks(all[n], MarketOf(o, list[n]), Held(c, all[n]), Held(e, all[n]), funds - Spent(c, e, all, n), inBand);
  }

  /** What a synchronisation of all legs needs to know. */
  lemma TradeSetting(c: Account, s: int, o: OverlayDay, legs: set<string>)
    requires Ready(c, o, legs)
    ensures var all := AllLegs(c, o);
      && Matches(o, LegList(o), Wish(c, o), all) && ValidLegs(all) && Traded(c, s, o, legs) == Sync(c, s, all)
      && (Holds(c, all) <==> Holding(c, Wish(c, o), legs) && Floors(o, Counts(c)) <= c.margin)
      && (InBand(c, all) <==> Floors(o, Counts(c)) <= c.margin)
  {
    SyncOverAll(c, s, o, legs);
    AllLegsMatch(c, o, legs);
    SumsAreTotals(c, o, LegList(o), Wish(c, o), AllLegs(c, o));
    WishIsHeld(c, o, legs);
  }

  /** Unless everything is merely kept, each leg in turn picks out of what the legs before it left of margin and of the
      cash no owed tax claims. */
  lemma TradePicks(c: Account, s: int, o: OverlayDay, legs: set<string>, n: nat)
    requires Ready(c, o, legs) && n < |LegList(o)|
    requires !(Holding(c, Wish(c, o), legs) && Floors(o, Counts(c)) <= c.margin)
    ensures PicksAt(o, c, Traded(c, s, o, legs), Wish(c, o), n, c.margin + Max(c.cash - c.taxPayable, 0),
      Floors(o, Counts(c)) <= c.margin)
  {
    TradeSetting(c, s, o, legs);
    SyncPicks(c, s, o, Wish(c, o), AllLegs(c, o), n, c.margin + Max(c.cash - c.taxPayable, 0),
      Floors(o, Counts(c)) <= c.margin);
  }

  lemma SyncPicks(c: Account, s: int, o: OverlayDay, w: string -> int, all: seq<Leg>, n: nat, funds: int, inBand: bool)
    requires Matches(o, LegList(o), w, all) && ValidLegs(all) && !Holds(c, all) && n < |all|
    requires funds == c.margin + SpendableCash(c) && inBand == InBand(c, all)
    ensures PicksAt(o, c, Sync(c, s, all), w, n, funds, inBand)
  {
    SyncGreedy(c, s, all, n);
    ChosenPicks(c, Sync(c, s, all), o, w, all, n, funds, inBand);
  }
}
