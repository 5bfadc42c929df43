/** Margin synchronisation as the engine calls it: pending targets by name, terms and levels by name,
    the ledger as an object. */
module SyncFutures {
  import opened Overlay
  import opened Sums
  import opened Accounts
  import opened NameOrder
  import opened SyncTheory
  import opened SyncRepeat

  /** The pending overlay target, with what one contract of each leg needs at the current level. */
  datatype Instruction = Instruction(target: int, primary: Units, legTargets: map<string, int>,
      legUnits: map<string, Units>)
  {
    ghost predicate Valid() {
      && primary.Consistent()
      && (forall name | name in legUnits :: legUnits[name].Consistent())
      && PRIMARY_LEG !in legTargets
      && legTargets.Keys <= legUnits.Keys
    }
  }

  /** Every held secondary leg has terms. */
  ghost predicate Covers(i: Instruction, a: Account) {
    PRIMARY_LEG !in a.secondary && HeldNames(a) <= i.legUnits.Keys
  }

  function HeldNames(a: Account): set<string> {
    set name | name in a.secondary && a.secondary[name] != 0
  }

  function SecondaryLeg(i: Instruction, name: string): Leg
    requires name in i.legUnits
  {
    Leg(name, i.legUnits[name], Get(i.legTargets, name))
  }

  function SecondaryLegs(i: Instruction, names: seq<string>): (legs: seq<Leg>)
    requires forall name | name in names :: name in i.legUnits
    ensures |legs| == |names| && forall n | 0 <= n < |names| :: legs[n] == SecondaryLeg(i, names[n])
  {
    if names == [] then [] else [SecondaryLeg(i, names[0])] + SecondaryLegs(i, names[1..])
  }

  function PrimaryLeg(i: Instruction): Leg {
    Leg(PRIMARY_LEG, i.primary, i.target)
  }

  ghost function LegNamesOf(i: Instruction, a: Account): set<string> {
    i.legTargets.Keys + HeldNames(a)
  }

  /** The primary leg, then each targeted or held secondary leg in ascending name order. */
  ghost function LegsOf(i: Instruction, a: Account): seq<Leg>
    requires i.Valid() && Covers(i, a)
  {
    [PrimaryLeg(i)] + SecondaryLegs(i, Ascending(LegNamesOf(i, a)))
  }

  lemma LegsOfValid(i: Instruction, a: Account)
    requires i.Valid() && Covers(i, a)
    ensures ValidLegs(LegsOf(i, a))
    ensures forall name :: name in Names(LegsOf(i, a)) <==> name == PRIMARY_LEG || name in LegNamesOf(i, a)
  {
    ListedLegsValid(i, Ascending(LegNamesOf(i, a)));
  }

  lemma ListedLegsConsistent(i: Instruction, list: seq<string>)
    requires i.Valid() && (forall name | name in list :: name in i.legUnits)
    ensures forall l | l in [PrimaryLeg(i)] + SecondaryLegs(i, list) ::
      l.units.Consistent() && (l.name == PRIMARY_LEG || l.name in list)
  {
    var legs := [PrimaryLeg(i)] + SecondaryLegs(i, list);
    forall l | l in legs ensures l.units.Consistent() && (l.name == PRIMARY_LEG || l.name in list) {
      var n :| 0 <= n < |legs| && l == legs[n];
      assert n == 0 || l == SecondaryLeg(i, list[n - 1]);
    }
  }

  lemma ListedLegsValid(i: Instruction, list: seq<string>)
    requires i.Valid() && (forall name | name in list :: name in i.legUnits) && PRIMARY_LEG !in list
    requires forall m, n | 0 <= m < n < |list| :: list[m] != list[n]
    ensures var legs := [PrimaryLeg(i)] + SecondaryLegs(i, list);
      ValidLegs(legs) && forall name :: name in Names(legs) <==> name == PRIMARY_LEG || name in list
  {
    var legs := [PrimaryLeg(i)] + SecondaryLegs(i, list);
    ListedLegsConsistent(i, list);
    forall name | name == PRIMARY_LEG || name in list ensures name in Names(legs) {
      if name == PRIMARY_LEG {
        assert legs[0] in legs;
      } else {
        var n :| 0 <= n < |list| && list[n] == name;
        assert legs[n + 1] in legs;
      }
    }
  }

  // ----- legs that neither hold nor aim at anything can be left out -----

  function Keep(legs: seq<Leg>, names: set<string>): seq<Leg> {
    if legs == [] then []
    else if legs[0].name in names then [legs[0]] + Keep(legs[1..], names)
    else Keep(legs[1..], names)
  }

  predicate Flat(a: Account, l: Leg) {
    l.target == 0 && Held(a, l) == 0
  }

  ghost predicate DropsOnlyFlat(a: Account, legs: seq<Leg>, names: set<string>) {
    forall l | l in legs && l.name !in names :: Flat(a, l)
  }

  lemma FlatLegStays(a: Account, s: int, l: Leg, remaining: int, inBand: bool)
    requires l.units.Consistent() && Flat(a, l)
    ensures FundHead(a, s, l, remaining, inBand) == a && Left(a, l, remaining, inBand) == remaining
    ensures Reserve(l.units, Held(a, l)) == 0 && MaintenanceFloor(l.units, Held(a, l)) == 0
  {
    CommissionNonNegative(l.units.cost, 0);
    assert Choose(l, 0, remaining, inBand) == 0;
  }

  lemma {:induction false} DroppingKeepsSums(a: Account, legs: seq<Leg>, names: set<string>)
    requires DropsOnlyFlat(a, legs, names)
    ensures SumReserve(a, Keep(legs, names)) == SumReserve(a, legs)
    ensures SumFloor(a, Keep(legs, names)) == SumFloor(a, legs)
    ensures AllAtTarget(a, Keep(legs, names)) <==> AllAtTarget(a, legs)
  {
    if legs != [] {
      var l, rest := legs[0], legs[1..];
      assert l in legs && legs == [l] + rest;
      DroppingKeepsSums(a, rest, names);
      if l.name in names {
        assert ([l] + Keep(rest, names))[1..] == Keep(rest, names);
      }
    }
  }

  lemma {:induction false} DroppingKeepsFunding(a: Account, s: int, legs: seq<Leg>, names: set<string>, remaining: int,
      inBand: bool)
    requires ValidLegs(legs) && DropsOnlyFlat(a, legs, names)
    ensures FundLegs(a, s, Keep(legs, names), remaining, inBand) == FundLegs(a, s, legs, remaining, inBand)
    decreases |legs|
  {
    if legs != [] {
      var l, rest := legs[0], legs[1..];
      assert l in legs;
      HeadName(legs);
      FundHeadMoves(a, s, legs, remaining, inBand);
      var a1, left := FundHead(a, s, l, remaining, inBand), Left(a, l, remaining, inBand);
      if l.name in names {
        RestDropsFlat(a, a1, legs, names);
        DroppingKeepsFunding(a1, s, rest, names, left, inBand);
        FundOneStep(a, s, [l] + Keep(rest, names), remaining, inBand);
        assert ([l] + Keep(rest, names))[1..] == Keep(rest, names);
      } else {
        FlatLegStays(a, s, l, remaining, inBand);
        RestDropsFlat(a, a, legs, names);
        DroppingKeepsFunding(a, s, rest, names, remaining, inBand);
      }
    }
  }

  lemma RestDropsFlat(a: Account, a1: Account, legs: seq<Leg>, names: set<string>)
    requires legs != [] && DropsOnlyFlat(a, legs, names) && SameHoldings(a, a1, legs[1..])
    ensures DropsOnlyFlat(a1, legs[1..], names)
  {
    forall m | m in legs[1..] && m.name !in names ensures Flat(a1, m) {
      assert m in legs;
    }
  }

  lemma DroppingKeepsFunded(a: Account, s: int, legs: seq<Leg>, names: set<string>, remaining: int, inBand: bool)
    requires ValidLegs(legs) && DropsOnlyFlat(a, legs, names)
    ensures var m := FundLegs(a, s, legs, remaining, inBand);
      && FundLegs(a, s, Keep(legs, names), remaining, inBand) == m
      && SumReserve(m, Keep(legs, names)) == SumReserve(m, legs)
  {
    DroppingKeepsFunding(a, s, legs, names, remaining, inBand);
    FundBetween(a, s, legs, remaining, inBand);
    DroppingKeepsSums(FundLegs(a, s, legs, remaining, inBand), legs, names);
  }

  /** Synchronising over fewer legs is the same when only flat, untargeted legs are dropped. */
  lemma DroppingKeepsSync(a: Account, s: int, legs: seq<Leg>, names: set<string>)
    requires ValidLegs(legs) && DropsOnlyFlat(a, legs, names)
    ensures Sync(a, s, Keep(legs, names)) == Sync(a, s, legs)
  {
    DroppingKeepsSums(a, legs, names);
    DroppingKeepsFunds(a, s, legs, names);
    SyncCongruent(a, s, Keep(legs, names), legs);
  }

  lemma DroppingKeepsFunds(a: Account, s: int, legs: seq<Leg>, names: set<string>)
    requires ValidLegs(legs) && DropsOnlyFlat(a, legs, names) && InBand(a, Keep(legs, names)) == InBand(a, legs)
    ensures Funded(a, s, Keep(legs, names)) == Funded(a, s, legs)
    ensures SumReserve(Funded(a, s, legs), Keep(legs, names)) == SumReserve(Funded(a, s, legs), legs)
  {
    DroppingKeepsFunded(a, s, legs, names, a.margin + SpendableCash(a), InBand(a, legs));
  }

  lemma SyncCongruent(a: Account, s: int, legs: seq<Leg>, legs': seq<Leg>)
    requires InBand(a, legs) == InBand(a, legs') && AllAtTarget(a, legs) == AllAtTarget(a, legs')
    requires SumReserve(a, legs) == SumReserve(a, legs')
    requires Funded(a, s, legs) == Funded(a, s, legs')
    requires SumReserve(Funded(a, s, legs), legs) == SumReserve(Funded(a, s, legs), legs')
    ensures Sync(a, s, legs) == Sync(a, s, legs')
  {
    if Holds(a, legs) {
      SyncWhenHolding(a, s, legs);
      SyncWhenHolding(a, s, legs');
    } else {
      SyncWhenTrading(a, s, legs);
      SyncWhenTrading(a, s, legs');
      MarginCongruent(Funded(a, s, legs), s, legs, legs');
    }
  }

  lemma MarginCongruent(m: Account, s: int, legs: seq<Leg>, legs': seq<Leg>)
    requires SumReserve(m, legs) == SumReserve(m, legs')
    ensures SyncMargin(m, s, legs) == SyncMargin(m, s, legs')
  {
  }

  lemma {:induction false} KeepOfSecondaries(i: Instruction, list: seq<string>, names: set<string>)
    requires forall name | name in list :: name in i.legUnits
    requires forall name | name in KeepNames(list, names) :: name in i.legUnits
    ensures Keep(SecondaryLegs(i, list), names) == SecondaryLegs(i, KeepNames(list, names))
  {
    if list != [] {
      var legs := SecondaryLegs(i, list);
      assert legs[1..] == SecondaryLegs(i, list[1..]);
      if list[0] in names {
        assert KeepNames(list, names)[1..] == KeepNames(list[1..], names);
      }
      KeepOfSecondaries(i, list[1..], names);
    }
  }

  // ----- calling again with the same instruction -----

  /** The legs are recomputed for a second call, and closed untargeted ones have dropped out; that changes nothing. */
  lemma ResyncIsRepeat(i: Instruction, a: Account, s: int, s': int)
    requires i.Valid() && Covers(i, a)
    ensures var b := Sync(a, s, LegsOf(i, a));
      Covers(i, b) && Sync(b, s', LegsOf(i, b)) == Sync(b, s', LegsOf(i, a))
  {
    var legs := LegsOf(i, a);
    var b := Sync(a, s, legs);
    LegsOfValid(i, a);
    SyncSecondary(i, a, s);
    LaterLegs(i, a, b);
    DroppingKeepsSync(b, s', legs, {PRIMARY_LEG} + LegNamesOf(i, b));
  }

  /** The engine's second call with the same targets and levels books nothing if and only if the first call held or
      left a settled account. */
  lemma ResyncBooksNothingExactly(i: Instruction, a: Account, s: int, s': int)
    requires i.Valid() && Covers(i, a)
    ensures var b := Sync(a, s, LegsOf(i, a));
      && Covers(i, b)
      && (Sync(b, s', LegsOf(i, b)) == b <==> Holds(a, LegsOf(i, a)) || Settled(b, LegsOf(i, a)))
  {
    LegsOfValid(i, a);
    ResyncIsRepeat(i, a, s, s');
    RepeatBooksNothingExactly(a, s, s', LegsOf(i, a));
  }

  /** A synchronisation holds no leg outside the instruction and the earlier holdings. */
  lemma SyncSecondary(i: Instruction, a: Account, s: int)
    requires i.Valid() && Covers(i, a)
    ensures var b := Sync(a, s, LegsOf(i, a));
      PRIMARY_LEG !in b.secondary && HeldNames(b) <= LegNamesOf(i, a)
  {
    var legs := LegsOf(i, a);
    var b := Sync(a, s, legs);
    LegsOfValid(i, a);
    SyncConserves(a, s, legs);
    SyncKeepsPrimaryOut(a, s, legs);
    forall name | name in HeldNames(b) ensures name in LegNamesOf(i, a) {
      assert LegContracts(b, name) != 0;
      assert name in Names(legs) || name in HeldNames(a);
    }
  }

  lemma {:induction false} FundKeepsPrimaryOut(a: Account, s: int, legs: seq<Leg>, remaining: int, inBand: bool)
    requires PRIMARY_LEG !in a.secondary
    ensures PRIMARY_LEG !in FundLegs(a, s, legs, remaining, inBand).secondary
    decreases |legs|
  {
    if legs != [] {
      FundKeepsPrimaryOut(FundHead(a, s, legs[0], remaining, inBand), s, legs[1..],
        Left(a, legs[0], remaining, inBand), inBand);
    }
  }

  lemma SyncKeepsPrimaryOut(a: Account, s: int, legs: seq<Leg>)
    requires PRIMARY_LEG !in a.secondary
    ensures PRIMARY_LEG !in Sync(a, s, legs).secondary
  {
    FundKeepsPrimaryOut(a, s, legs, a.margin + SpendableCash(a), InBand(a, legs));
  }

  /** The legs of a later call are those of the earlier one without the legs closed in between. */
  lemma LaterLegs(i: Instruction, a: Account, b: Account)
    requires i.Valid() && Covers(i, a)
    requires PRIMARY_LEG !in b.secondary && HeldNames(b) <= LegNamesOf(i, a)
    ensures Covers(i, b)
    ensures var names := {PRIMARY_LEG} + LegNamesOf(i, b);
      LegsOf(i, b) == Keep(LegsOf(i, a), names) && DropsOnlyFlat(b, LegsOf(i, a), names)
  {
    var now, later := LegNamesOf(i, a), LegNamesOf(i, b);
    AscendingOfSubset(now, later);
    LaterListed(i, b, Ascending(now), Ascending(later));
  }

  lemma LaterListed(i: Instruction, b: Account, list: seq<string>, list': seq<string>)
    requires forall name | name in list :: name in i.legUnits
    requires PRIMARY_LEG !in list && PRIMARY_LEG !in b.secondary
    requires list' == KeepNames(list, LegNamesOf(i, b))
    requires forall name | name in list' :: name in i.legUnits
    ensures var names := {PRIMARY_LEG} + LegNamesOf(i, b);
      var legs := [PrimaryLeg(i)] + SecondaryLegs(i, list);
      [PrimaryLeg(i)] + SecondaryLegs(i, list') == Keep(legs, names) && DropsOnlyFlat(b, legs, names)
  {
    var later := LegNamesOf(i, b);
    ListedLegsKept(i, list, later);
    forall name | name in list && name !in later ensures Flat(b, SecondaryLeg(i, name)) {
      assert name !in HeldNames(b);
    }
    ListedLegsFlat(i, b, list, {PRIMARY_LEG} + later);
  }

  lemma ListedLegsKept(i: Instruction, list: seq<string>, later: set<string>)
    requires forall name | name in list :: name in i.legUnits
    requires PRIMARY_LEG !in list
    requires forall name | name in KeepNames(list, later) :: name in i.legUnits
    ensures Keep([PrimaryLeg(i)] + SecondaryLegs(i, list), {PRIMARY_LEG} + later)
         == [PrimaryLeg(i)] + SecondaryLegs(i, KeepNames(list, later))
  {
    var names := {PRIMARY_LEG} + later;
    KeepNamesFrame(list, names, later);
    KeepOfSecondaries(i, list, names);
    var legs := [PrimaryLeg(i)] + SecondaryLegs(i, list);
    assert legs[0] == PrimaryLeg(i) && legs[1..] == SecondaryLegs(i, list);
  }

  lemma ListedLegsFlat(i: Instruction, b: Account, list: seq<string>, names: set<string>)
    requires forall name | name in list :: name in i.legUnits
    requires PRIMARY_LEG in names
    requires forall name | name in list && name !in names :: Flat(b, SecondaryLeg(i, name))
    ensures DropsOnlyFlat(b, [PrimaryLeg(i)] + SecondaryLegs(i, list), names)
  {
    var legs := [PrimaryLeg(i)] + SecondaryLegs(i, list);
    forall l | l in legs && l.name !in names ensures Flat(b, l) {
      var n :| 0 <= n < |legs| && l == legs[n];
      assert l == SecondaryLeg(i, list[n - 1]);
    }
  }
}
