/** Synchronising twice: exactly when the second pass books nothing, and a pool on which it does not. */
module SyncRepeat {
  import opened Overlay
  import opened FundingSearch
  import opened Accounts
  import opened SyncTheory

  // ----- a pool left short -----

  ghost predicate AllFlat(b: Account, legs: seq<Leg>) {
    forall l | l in legs :: Held(b, l) == 0
  }

  /** After a synchronisation that traded, the pool never exceeds the summed reserve, and a short pool has taken all
      spendable cash. */
  lemma PoolAfterwards(a: Account, s: int, legs: seq<Leg>)
    requires !Holds(a, legs)
    ensures var b := Sync(a, s, legs);
      b.margin <= SumReserve(b, legs) && (b.margin < SumReserve(b, legs) ==> SpendableCash(b) == 0)
  {
    SyncMarginMoves(Funded(a, s, legs), s, legs);
  }

  /** Moving margin into a short pool without spendable cash moves nothing. */
  lemma NothingToMove(b: Account, s: int, legs: seq<Leg>)
    requires b.margin <= SumReserve(b, legs) && (b.margin < SumReserve(b, legs) ==> SpendableCash(b) == 0)
    ensures SyncMargin(b, s, legs) == b
  {
  }

  lemma {:induction false} FlatReservesNothing(b: Account, legs: seq<Leg>)
    requires AllFlat(b, legs)
    ensures SumReserve(b, legs) == 0
  {
    if legs != [] {
      assert legs[0] in legs;
      FlatReservesNothing(b, legs[1..]);
    }
  }

  /** Out of a negative amount, flat legs stay flat. */
  lemma {:induction false} FlatStaysFlat(b: Account, s: int, legs: seq<Leg>, remaining: int, inBand: bool)
    requires ValidLegs(legs) && AllFlat(b, legs) && remaining < 0
    ensures FundLegs(b, s, legs, remaining, inBand) == b
    decreases |legs|
  {
    if legs != [] {
      var l := legs[0];
      assert l in legs;
      HeadName(legs);
      NothingFundable(l.units, l.target, 0, remaining);
      CommissionNonNegative(l.units.cost, 0);
      FlatStaysFlat(b, s, legs[1..], remaining, inBand);
    }
  }

  // ----- what an idle second pass implies -----

  /** Every leg in turn chooses what it holds. */
  predicate Idle(b: Account, legs: seq<Leg>, remaining: int, inBand: bool) {
    legs == [] ||
    (Choose(legs[0], Held(b, legs[0]), remaining, inBand) == Held(b, legs[0]) &&
     Idle(b, legs[1..], remaining - Reserve(legs[0].units, Held(b, legs[0])), inBand))
  }

  /** If nothing moves, the first leg did not, and the rest starts from the same account with its reserve taken. */
  lemma IdleHead(b: Account, s: int, legs: seq<Leg>, remaining: int, inBand: bool)
    requires ValidLegs(legs) && legs != [] && SameHoldings(FundLegs(b, s, legs, remaining, inBand), b, legs)
    ensures ValidLegs(legs[1..]) && Choose(legs[0], Held(b, legs[0]), remaining, inBand) == Held(b, legs[0])
    ensures var left := remaining - Reserve(legs[0].units, Held(b, legs[0]));
      SameHoldings(FundLegs(b, s, legs[1..], left, inBand), b, legs[1..])
  {
    assert legs[0] in legs;
    HeadName(legs);
    HeadSettled(b, s, legs, remaining, inBand);
    CommissionNonNegative(legs[0].units.cost, 0);
  }

  /** Funding that leaves the holdings as they are, leg by leg. */
  lemma {:induction false} FundingIsIdle(b: Account, s: int, legs: seq<Leg>, remaining: int, inBand: bool)
    requires ValidLegs(legs) && SameHoldings(FundLegs(b, s, legs, remaining, inBand), b, legs)
    ensures Idle(b, legs, remaining, inBand)
    decreases |legs|
  {
    if legs != [] {
      IdleHead(b, s, legs, remaining, inBand);
      FundingIsIdle(b, s, legs[1..], remaining - Reserve(legs[0].units, Held(b, legs[0])), inBand);
    }
  }

  lemma {:induction false} IdleInBandStays(b: Account, legs: seq<Leg>, remaining: int)
    requires Idle(b, legs, remaining, true)
    ensures Stays(b, legs, remaining)
  {
    if legs != [] {
      IdleInBandStays(b, legs[1..], remaining - Reserve(legs[0].units, Held(b, legs[0])));
    }
  }

  /** Outside the band a held leg that does not move was affordable where it stands. */
  lemma IdleOutsideAffords(b: Account, l: Leg, remaining: int)
    requires l.units.Consistent() && Choose(l, Held(b, l), remaining, false) == Held(b, l) != 0
    ensures Reserve(l.units, Held(b, l)) <= remaining
  {
    LargestFundableIsMaximal(l.units, l.target, Held(b, l), remaining);
    CommissionNonNegative(l.units.cost, 0);
  }

  /** So all reserves were covered. */
  lemma {:induction false} IdleOutsideCovers(b: Account, legs: seq<Leg>, remaining: int)
    requires ValidLegs(legs) && Idle(b, legs, remaining, false) && !AllFlat(b, legs)
    ensures SumReserve(b, legs) <= remaining
  {
    var l, rest := legs[0], legs[1..];
    assert l in legs;
    HeadName(legs);
    if AllFlat(b, rest) {
      FlatReservesNothing(b, rest);
      IdleOutsideAffords(b, l, remaining);
    } else {
      IdleOutsideCovers(b, rest, remaining - Reserve(l.units, Held(b, l)));
    }
  }

  lemma {:induction false} AtTargetStays(b: Account, legs: seq<Leg>, remaining: int)
    requires AllAtTarget(b, legs)
    ensures Stays(b, legs, remaining)
  {
    if legs != [] {
      assert legs[0] in legs;
      AtTargetStays(b, legs[1..], remaining - Reserve(legs[0].units, Held(b, legs[0])));
    }
  }

  // ----- exactly when a second pass books nothing -----

  /** The pool is full, or nothing is held, or the margin alone keeps every leg where it is inside the band. */
  ghost predicate Settled(b: Account, legs: seq<Leg>) {
    b.margin == SumReserve(b, legs) || AllFlat(b, legs) || (InBand(b, legs) && Stays(b, legs, b.margin))
  }

  lemma SettledBooksNothing(b: Account, s: int, legs: seq<Leg>)
    requires ValidLegs(legs) && b.margin < SumReserve(b, legs) && SpendableCash(b) == 0 && Settled(b, legs)
    ensures Sync(b, s, legs) == b
  {
    NothingToMove(b, s, legs);
    if !Holds(b, legs) {
      if AllFlat(b, legs) {
        FlatReservesNothing(b, legs);
        FlatStaysFlat(b, s, legs, b.margin, InBand(b, legs));
      } else {
        StaysBooksNothing(b, s, legs, b.margin);
      }
    }
  }

  /** A pass that books nothing funds nothing. */
  lemma IdleHoldings(b: Account, s: int, legs: seq<Leg>)
    requires !Holds(b, legs) && SpendableCash(b) == 0 && Sync(b, s, legs) == b
    ensures SameHoldings(FundLegs(b, s, legs, b.margin, InBand(b, legs)), b, legs)
  {
    SyncWhenTrading(b, s, legs);
    SyncMarginMoves(Funded(b, s, legs), s, legs);
  }

  lemma HoldsIsSettled(b: Account, legs: seq<Leg>)
    requires Holds(b, legs)
    ensures Settled(b, legs)
  {
    AtTargetStays(b, legs, b.margin);
  }

  lemma IdleFundingIsSettled(b: Account, s: int, legs: seq<Leg>)
    requires ValidLegs(legs) && b.margin < SumReserve(b, legs) && !AllFlat(b, legs)
    requires SameHoldings(FundLegs(b, s, legs, b.margin, InBand(b, legs)), b, legs)
    ensures Settled(b, legs)
  {
    FundingIsIdle(b, s, legs, b.margin, InBand(b, legs));
    if InBand(b, legs) {
      IdleInBandStays(b, legs, b.margin);
    } else {
      IdleOutsideCovers(b, legs, b.margin);
    }
  }

  lemma IdleIsSettled(b: Account, s: int, legs: seq<Leg>)
    requires ValidLegs(legs) && b.margin < SumReserve(b, legs) && SpendableCash(b) == 0 && Sync(b, s, legs) == b
    ensures Settled(b, legs)
  {
    if Holds(b, legs) {
      HoldsIsSettled(b, legs);
    } else if !AllFlat(b, legs) {
      IdleHoldings(b, s, legs);
      IdleFundingIsSettled(b, s, legs);
    }
  }

  /** After a hold a second pass books nothing.  After a synchronisation that traded, it books nothing if and only
      if the account it left is settled. */
  lemma RepeatBooksNothingExactly(a: Account, s: int, s': int, legs: seq<Leg>)
    requires ValidLegs(legs)
    ensures var b := Sync(a, s, legs); Sync(b, s', legs) == b <==> Holds(a, legs) || Settled(b, legs)
  {
    var b := Sync(a, s, legs);
    if Holds(a, legs) || b.margin == SumReserve(b, legs) {
      SyncIdempotent(a, s, s', legs);
    } else {
      PoolAfterwards(a, s, legs);
      if Settled(b, legs) {
        SettledBooksNothing(b, s', legs);
      }
      if Sync(b, s', legs) == b {
        IdleIsSettled(b, s', legs);
      }
    }
  }

  // ----- a pool that moves twice -----

  /** Valid terms of the two legs: a multiplier of 1 and margin rates of 0.4 and 0.1, at level 20. */
  const KEPT_TERMS := DerivativeConfig(1, 0.4, 0.1, 0.625, 0.0, 0.0, 0.0, 0, 0.0)
  const CLOSED_TERMS := DerivativeConfig(1, 0.4, 0.1, 0.125, 0.25, 0.0, 0.0, 0, 0.0)

  const KEPT := Leg(PRIMARY_LEG, Units(10.0, 5.0, 0.0, 10.0), 1)
  const CLOSED := Leg("q", Units(10.0, 1.0, 5.0, 10.0), 0)
  const SHORT_LEGS := [KEPT, CLOSED]

  ghost predicate ShortStart(a: Account) {
    a.margin == 6 && a.contracts == 1 && a.secondary == map["q" := 1] && a.cash == 0 && a.taxPayable == 0
  }

  ghost predicate ShortMiddle(b: Account) {
    b.margin == 1 && b.contracts == 1 && LegContracts(b, "q") == 0 && b.cash == 0 && b.taxPayable == 0
  }

  lemma ShortLegsHaveTerms()
    ensures KEPT_TERMS.Valid() && CLOSED_TERMS.Valid()
    ensures KEPT.units == UnitsOf(KEPT_TERMS, 20.0, 1) && CLOSED.units == UnitsOf(CLOSED_TERMS, 20.0, 1)
  {
    assert (0.4 + 0.1) * 1.0 * 20.0 == 10.0;
    assert 0.625 * 0.4 * 1.0 * 20.0 == 5.0 && 0.125 * 0.4 * 1.0 * 20.0 == 1.0 && 0.25 * 1.0 * 20.0 == 5.0;
  }

  /** A pool left short of the summed reserve can move again: closing one expensive leg pays its commission
      out of the shared margin, which pushes the kept leg below its maintenance floor, and the next
      synchronisation closes that leg too. */
  lemma ShortPoolMovesTwice(a: Account)
    requires ShortStart(a)
    ensures ValidLegs(SHORT_LEGS) && InBand(a, SHORT_LEGS)
    ensures var b := Sync(a, 0, SHORT_LEGS);
      b.margin < SumReserve(b, SHORT_LEGS) && b.contracts == 1 && Sync(b, 0, SHORT_LEGS).contracts == 0
    ensures !Settled(Sync(a, 0, SHORT_LEGS), SHORT_LEGS)
  {
    ShortPoolFirstPass(a);
    ShortPoolSecondPass(Sync(a, 0, SHORT_LEGS));
    RepeatBooksNothingExactly(a, 0, 0, SHORT_LEGS);
  }

  lemma ShortPoolAmounts()
    ensures Reserve(KEPT.units, 1) == 10 && MaintenanceFloor(KEPT.units, 1) == 5
    ensures Commission(KEPT.units.cost, 0) == 0
    ensures MaintenanceFloor(CLOSED.units, 1) == 1 && Commission(CLOSED.units.cost, -1) == 5
    ensures LargestFundable(CLOSED.units, 0, 1, -4) == 0
    ensures LargestFundable(KEPT.units, 1, 1, 1) == 0
  {
    assert !Fundable(KEPT.units, 1, 1, 1);
    assert Scan(KEPT.units, 1, 1, 1, 1) == Scan(KEPT.units, 1, 0, 1, 1);
  }

  lemma ShortPoolSums(a: Account)
    requires a.contracts == 1 && LegContracts(a, "q") in {0, 1}
    ensures LegContracts(a, "q") == 0 ==> SumReserve(a, SHORT_LEGS) == 10
    ensures SumFloor(a, SHORT_LEGS) == 5 + LegContracts(a, "q")
    ensures SHORT_LEGS[1..] == [CLOSED] && [CLOSED][1..] == []
  {
    ShortPoolAmounts();
    assert SHORT_LEGS[1..] == [CLOSED] && [CLOSED][1..] == [];
    assert SumReserve(a, [CLOSED]) == Reserve(CLOSED.units, LegContracts(a, "q"));
    assert SumFloor(a, [CLOSED]) == LegContracts(a, "q");
  }

  lemma ShortPoolFunding(a: Account)
    requires ShortStart(a)
    ensures ShortMiddle(FundLegs(a, 0, SHORT_LEGS, 6, true))
  {
    ShortPoolAmounts();
    ShortPoolSums(a);
    var m := FundLegs(a, 0, SHORT_LEGS, 6, true);
    HeadSettled(a, 0, SHORT_LEGS, 6, true);
    FundHeadMoves(a, 0, SHORT_LEGS, 6, true);
    HeadSettled(a, 0, [CLOSED], -4, true);
    FundSpendable(a, 0, SHORT_LEGS, 6, true);
    assert SumCost(a, m, [CLOSED]) == 5;
    assert SumCost(a, m, SHORT_LEGS) == 5;
  }

  lemma ShortPoolFirstPass(a: Account)
    requires ShortStart(a)
    ensures InBand(a, SHORT_LEGS)
    ensures var b := Sync(a, 0, SHORT_LEGS); ShortMiddle(b) && b.margin < SumReserve(b, SHORT_LEGS)
  {
    ShortPoolSums(a);
    ShortPoolFunding(a);
    ShortPoolSums(FundLegs(a, 0, SHORT_LEGS, 6, true));
    assert !AllAtTarget(a, SHORT_LEGS) by { assert CLOSED in SHORT_LEGS; }
  }

  lemma ShortPoolSecondPass(b: Account)
    requires ShortMiddle(b)
    ensures Sync(b, 0, SHORT_LEGS).contracts == 0
  {
    ShortPoolAmounts();
    ShortPoolSums(b);
    assert ValidLegs(SHORT_LEGS);
    HeadSettled(b, 0, SHORT_LEGS, 1, false);
    var m := FundLegs(b, 0, SHORT_LEGS, 1, false);
    assert m.contracts == Held(m, KEPT) == 0;
    assert Funded(b, 0, SHORT_LEGS) == m;
    SyncMarginMoves(m, 0, SHORT_LEGS);
  }
}
