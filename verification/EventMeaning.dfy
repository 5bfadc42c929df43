/** What a session does before and after its overlay: corporate actions, dividends, exits, deposits, yield, the order
    of settlements, and the year end. */
module EventMeaning {
  import opened Options
  import opened Rounding
  import opened Costs
  import opened Sums
  import opened Sorting
  import opened Accounts
  import opened LedgerInvariants
  import opened Fills
  import opened Engine
  import opened NavGains

  ghost predicate HoldsAs(b: Account, held: int -> int) {
    forall i :: Get(b.positions, i) == held(i)
  }

  ghost predicate OwedAs(b: Account, owed: int -> int) {
    forall pay :: Get(b.receivableByPay, pay) == owed(pay)
  }

  /** Neither margin, owed tax, units, outside flows nor the yearly bases moved. */
  ghost predicate RestKept(a: Account, b: Account) {
    && b.margin == a.margin && b.taxPayable == a.taxPayable && b.inverseUnits == a.inverseUnits
    && b.externalFlow == a.externalFlow && b.ytdCashYield == a.ytdCashYield && b.ytdFuturesPnl == a.ytdFuturesPnl
  }

  // ----- share factors -----

  /** A holding times a factor: the whole shares, and what the fraction pays at the base price, both rounded down. */
  function Whole(held: int, factor: real): int {
    Scaled(held, factor).Floor
  }

  function Paid(scaled: real, basePrice: int): int {
    ((scaled - scaled.Floor as real) * basePrice as real).Floor
  }

  /** What the factors of one instrument make of a holding. */
  function FactoredHolding(held: int, factors: seq<ShareFactor>, i: int): int {
    if factors == [] then held
    else
      var f, before := factors[|factors| - 1], FactoredHolding(held, factors[..|factors| - 1], i);
      if f.instrument == i then Whole(before, f.factor) else before
  }

  function LeftOver(held: int, f: ShareFactor): int {
    Paid(Scaled(held, f.factor), f.basePrice)
  }

  function LeftOvers(positions: map<int, int>, factors: seq<ShareFactor>): int {
    if factors == [] then 0
    else
      var n := |factors| - 1;
      var i := factors[n].instrument;
      LeftOvers(positions, factors[..n]) + LeftOver(FactoredHolding(Get(positions, i), factors[..n], i), factors[n])
  }

  /** Only cash, holdings and the journal moved. */
  ghost predicate OnlyShares(a: Account, b: Account, money: int) {
    b == a.(cash := a.cash + money, positions := b.positions, journal := b.journal)
  }

  lemma NothingPaid(basePrice: int)
    ensures Paid(0.0, basePrice) == 0
  {
    assert 0.0 * basePrice as real == 0.0;
  }

  lemma NothingLeftOver(f: ShareFactor)
    ensures LeftOver(0, f) == 0 && Whole(0, f.factor) == 0
  {
    assert Scaled(0, f.factor) == 0.0;
    NothingPaid(f.basePrice);
  }

  lemma FactorMeans(a: Account, s: int, f: ShareFactor)
    ensures var b := ShareFactored(a, s, f.instrument, f.factor, f.basePrice);
      && OnlyShares(a, b, LeftOver(Get(a.positions, f.instrument), f))
      && forall j :: Get(b.positions, j) ==
           if j == f.instrument then Whole(Get(a.positions, j), f.factor) else Get(a.positions, j)
  {
    var held := Get(a.positions, f.instrument);
    if held == 0 {
      NothingLeftOver(f);
    } else {
      PaidInLieu(Scaled(held, f.factor), f.basePrice);
    }
  }

  lemma PaidInLieu(scaled: real, basePrice: int)
    ensures Paid(scaled, basePrice) == CashInLieu(scaled, basePrice)
  {
  }

  /** Holdings after the factors. */
  function FactoredBy(positions: map<int, int>, factors: seq<ShareFactor>): int -> int {
    i => FactoredHolding(Get(positions, i), factors, i)
  }

  lemma {:induction false} FactorsMean(a: Account, s: int, factors: seq<ShareFactor>)
    ensures var b := AfterFactors(a, s, factors);
      OnlyShares(a, b, LeftOvers(a.positions, factors)) && HoldsAs(b, FactoredBy(a.positions, factors))
  {
    if factors != [] {
      var n := |factors| - 1;
      FactorsMean(a, s, factors[..n]);
      FactorMeans(AfterFactors(a, s, factors[..n]), s, factors[n]);
    }
  }

  // ----- dividends -----

  /** Dividends of the events payable at `pay` on given holdings. */
  function DueAt(held: int -> int, events: seq<DividendEvent>, pay: int): int {
    if events == [] then 0
    else
      var e := events[|events| - 1];
      DueAt(held, events[..|events| - 1], pay) + (if e.paySession == pay then held(e.instrument) * e.dps else 0)
  }

  /** What is owed, with the dividends of the events. */
  function PlusDue(owed: map<int, int>, held: int -> int, events: seq<DividendEvent>): int -> int {
    pay => Get(owed, pay) + DueAt(held, events, pay)
  }

  lemma {:induction false} DividendsMean(a: Account, events: seq<DividendEvent>, held: int -> int)
    requires HoldsAs(a, held)
    ensures var b := DividendsRecorded(a, events);
      && b == a.(receivable := b.receivable, receivableByPay := b.receivableByPay)
      && OwedAs(b, PlusDue(a.receivableByPay, held, events))
  {
    if events != [] {
      var init, e := events[..|events| - 1], events[|events| - 1];
      var before, b := DividendsRecorded(a, init), DividendsRecorded(a, events);
      DividendsMean(a, init, held);
      assert Get(a.positions, e.instrument) == held(e.instrument);
      forall pay ensures Get(b.receivableByPay, pay) == PlusDue(a.receivableByPay, held, events)(pay) {
        assert Get(before.receivableByPay, pay) == PlusDue(a.receivableByPay, held, init)(pay);
      }
    }
  }

  // ----- exits -----

  predicate Exited(exits: seq<Exit>, i: int) {
    exists x | x in exits :: x.instrument == i
  }

  /** Each exited holding at the price of its first exit. */
  function ExitMoney(held: int -> int, exits: seq<Exit>): int {
    if exits == [] then 0
    else
      var before, x := exits[..|exits| - 1], exits[|exits| - 1];
      ExitMoney(held, before) + (if Exited(before, x.instrument) then 0 else held(x.instrument) * x.price)
  }

  lemma ExitedStep(exits: seq<Exit>, x: Exit, i: int)
    ensures Exited(exits + [x], i) <==> Exited(exits, i) || x.instrument == i
  {
    if Exited(exits, i) {
      var y :| y in exits && y.instrument == i;
      assert y in exits + [x];
    }
    assert x in exits + [x];
  }

  /** Positions are never held at zero. */
  ghost predicate NoZeros(a: Account) {
    forall i | i in a.positions :: a.positions[i] != 0
  }

  function WithoutExits(held: int -> int, exits: seq<Exit>): int -> int {
    i => if Exited(exits, i) then 0 else held(i)
  }

  lemma {:induction false} ExitsMean(a: Account, s: int, exits: seq<Exit>, held: int -> int)
    requires NoZeros(a) && HoldsAs(a, held)
    ensures var b := AfterExits(a, s, exits);
      OnlyShares(a, b, ExitMoney(held, exits)) && NoZeros(b) && HoldsAs(b, WithoutExits(held, exits))
  {
    if exits != [] {
      var n := |exits| - 1;
      var before, x := AfterExits(a, s, exits[..n]), exits[n];
      ExitsMean(a, s, exits[..n], held);
      assert exits == exits[..n] + [x];
      ExitMeans(before, s, x);
      assert Get(before.positions, x.instrument) == WithoutExits(held, exits[..n])(x.instrument);
      forall i ensures Get(AfterExits(a, s, exits).positions, i) == WithoutExits(held, exits)(i) {
        ExitedStep(exits[..n], x, i);
        assert Get(before.positions, i) == WithoutExits(held, exits[..n])(i);
      }
    }
  }

  lemma ExitMeans(a: Account, s: int, x: Exit)
    requires NoZeros(a)
    ensures var b := if x.instrument in a.positions then ExitClosed(a, s, x.instrument, x.price) else a;
      && OnlyShares(a, b, Get(a.positions, x.instrument) * x.price) && NoZeros(b)
      && forall i :: Get(b.positions, i) == if i == x.instrument then 0 else Get(a.positions, i)
  {
  }

  // ----- the events of a session -----

  /** Holdings once the factors are applied. */
  function HeldAt(a: Account, d: Day): int -> int {
    FactoredBy(a.positions, d.factors)
  }

  /** Dividends to pay this session, with those that become due in it. */
  function DueNow(a: Account, d: Day): int {
    Get(a.receivableByPay, d.session) + DueAt(HeldAt(a, d), d.dividends, d.session)
  }

  /** Cash before the yield: left-over fractions, dividends after withholding, exits and the deposit. */
  function CashBeforeYield(a: Account, d: Day): int {
    a.cash + LeftOvers(a.positions, d.factors) + DueNow(a, d) - TaxOn(DueNow(a, d), d.costs.dividendWithholdingRate) +
    ExitMoney(HeldAt(a, d), d.exits) + d.deposit
  }

  function YieldOn(cash: int, cashReturn: Option<real>): int {
    if cashReturn.Some? && cash > 0 then (cash as real * cashReturn.value).Floor else 0
  }

  function OwedWith(a: Account, d: Day): int -> int {
    PlusDue(a.receivableByPay, HeldAt(a, d), d.dividends)
  }

  /** Dividends still owed after the session's own are paid. */
  function OwedAfter(a: Account, d: Day): int -> int {
    pay => if pay == d.session then 0 else OwedWith(a, d)(pay)
  }

  function HeldAfter(a: Account, d: Day): int -> int {
    WithoutExits(HeldAt(a, d), d.exits)
  }

  lemma RecordedMean(a: Account, d: Day)
    ensures var b := DividendsRecorded(AfterFactors(a, d.session, d.factors), d.dividends);
      && HoldsAs(b, HeldAt(a, d)) && OwedAs(b, OwedWith(a, d)) && RestKept(a, b)
      && b.cash == a.cash + LeftOvers(a.positions, d.factors)
  {
    var a1 := AfterFactors(a, d.session, d.factors);
    FactorsMean(a, d.session, d.factors);
    DividendsMean(a1, d.dividends, HeldAt(a, d));
  }

  /** Every due amount stays non-negative, and no zero is held. */
  lemma RecordedSound(a: Account, d: Day, legs: set<string>)
    requires Sound(a) && DayOk(d, legs)
    ensures var b := DividendsRecorded(AfterFactors(a, d.session, d.factors), d.dividends);
      NoZeros(b) && 0 <= Get(b.receivableByPay, d.session)
  {
    FactorsAreSafe(a, d.session, d.factors);
    DividendsRecordedHealthy(AfterFactors(a, d.session, d.factors), d.dividends);
  }

  lemma PaidMean(a: Account, d: Day, b: Account)
    requires HoldsAs(b, HeldAt(a, d)) && OwedAs(b, OwedWith(a, d)) && RestKept(a, b) && NoZeros(b)
    requires b.cash == a.cash + LeftOvers(a.positions, d.factors) && 0 <= Get(b.receivableByPay, d.session)
    ensures var c := DividendsSettled(b, d.session, d.costs);
      && HoldsAs(c, HeldAt(a, d)) && OwedAs(c, OwedAfter(a, d)) && RestKept(a, c) && NoZeros(c)
      && c.cash == b.cash + DueNow(a, d) - TaxOn(DueNow(a, d), d.costs.dividendWithholdingRate)
  {
    SettledMeans(b, d.session, d.costs);
    assert Get(b.receivableByPay, d.session) == OwedWith(a, d)(d.session) == DueNow(a, d);
  }

  lemma ExitedMean(a: Account, d: Day, c: Account)
    requires HoldsAs(c, HeldAt(a, d)) && OwedAs(c, OwedAfter(a, d)) && RestKept(a, c) && NoZeros(c)
    ensures var b := AfterExits(c, d.session, d.exits);
      && HoldsAs(b, HeldAfter(a, d)) && OwedAs(b, OwedAfter(a, d)) && RestKept(a, b)
      && b.cash == c.cash + ExitMoney(HeldAt(a, d), d.exits)
  {
    ExitsMean(c, d.session, d.exits, HeldAt(a, d));
  }

  ghost predicate Eventful(a: Account, d: Day, b: Account) {
    && HoldsAs(b, HeldAfter(a, d)) && OwedAs(b, OwedAfter(a, d))
    && b.cash == CashBeforeYield(a, d) + YieldOn(CashBeforeYield(a, d), d.cashReturn)
    && b.externalFlow == a.externalFlow + d.deposit
    && b.ytdCashYield == a.ytdCashYield + YieldOn(CashBeforeYield(a, d), d.cashReturn)
    && b.margin == a.margin && b.taxPayable == a.taxPayable && b.inverseUnits == a.inverseUnits
  }

  /** The events of a session: factored holdings but nothing of what exits, this session's dividends paid and later
      ones promised, and cash from all of them. */
  lemma EventsMean(a: Account, d: Day, legs: set<string>)
    requires Sound(a) && DayOk(d, legs)
    ensures Eventful(a, d, AfterEvents(a, d))
  {
    RecordedSound(a, d, legs);
    SoundEventsMean(a, d);
  }

  lemma SoundEventsMean(a: Account, d: Day)
    requires var b := DividendsRecorded(AfterFactors(a, d.session, d.factors), d.dividends);
      NoZeros(b) && 0 <= Get(b.receivableByPay, d.session)
    ensures Eventful(a, d, AfterEvents(a, d))
  {
    RecordedMean(a, d);
    EventsFrom(a, d, DividendsRecorded(AfterFactors(a, d.session, d.factors), d.dividends));
  }

  lemma EventsFrom(a: Account, d: Day, b: Account)
    requires HoldsAs(b, HeldAt(a, d)) && OwedAs(b, OwedWith(a, d)) && RestKept(a, b) && NoZeros(b)
    requires b.cash == a.cash + LeftOvers(a.positions, d.factors) && 0 <= Get(b.receivableByPay, d.session)
    ensures var c := AfterExits(DividendsSettled(b, d.session, d.costs), d.session, d.exits);
      Eventful(a, d, AfterYield(AfterDeposit(c, d.session, d.deposit), d.session, d.cashReturn))
  {
    var c := DividendsSettled(b, d.session, d.costs);
    PaidMean(a, d, b);
    ExitedMean(a, d, c);
    var e := AfterExits(c, d.session, d.exits);
    assert e.cash == CashBeforeYield(a, d) - d.deposit;
    FundedMean(a, d, e);
  }

  lemma FundedMean(a: Account, d: Day, e: Account)
    requires HoldsAs(e, HeldAfter(a, d)) && OwedAs(e, OwedAfter(a, d)) && RestKept(a, e)
    requires e.cash == CashBeforeYield(a, d) - d.deposit
    ensures Eventful(a, d, AfterYield(AfterDeposit(e, d.session, d.deposit), d.session, d.cashReturn))
  {
    FundingMeans(e, d);
  }

  lemma SettledMeans(a: Account, s: int, costs: CostConfig)
    requires 0 <= Get(a.receivableByPay, s)
    ensures var b, due := DividendsSettled(a, s, costs), Get(a.receivableByPay, s);
      && b == a.(cash := a.cash + due - TaxOn(due, costs.dividendWithholdingRate), receivable := b.receivable,
                 receivableByPay := b.receivableByPay, journal := b.journal)
      && forall pay :: Get(b.receivableByPay, pay) == if pay == s then 0 else Get(a.receivableByPay, pay)
  {
  }

  lemma FundingMeans(a: Account, d: Day)
    ensures var b, cash := AfterYield(AfterDeposit(a, d.session, d.deposit), d.session,
      d.cashReturn), a.cash + d.deposit;
      b == a.(cash := cash + YieldOn(cash, d.cashReturn), externalFlow := a.externalFlow + d.deposit,
              ytdCashYield := a.ytdCashYield + YieldOn(cash, d.cashReturn), journal := b.journal)
  {
    var c := AfterDeposit(a, d.session, d.deposit);
    assert c == a.(cash := a.cash + d.deposit, externalFlow := a.externalFlow + d.deposit, journal := c.journal);
    YieldMeans(c, d.session, d.cashReturn);
  }

  lemma YieldMeans(a: Account, s: int, cashReturn: Option<real>)
    ensures var b := AfterYield(a, s, cashReturn);
      b == a.(cash := a.cash + YieldOn(a.cash, cashReturn),
        ytdCashYield := a.ytdCashYield + YieldOn(a.cash, cashReturn),
              journal := b.journal)
  {
  }

  lemma {:induction false} ExitsKeepUnits(a: Account, s: int, exits: seq<Exit>)
    ensures AfterExits(a, s, exits).inverseUnits == a.inverseUnits
  {
    if exits != [] {
      ExitsKeepUnits(a, s, exits[..|exits| - 1]);
    }
  }

  lemma {:induction false} FactorsKeepUnits(a: Account, s: int, factors: seq<ShareFactor>)
    ensures AfterFactors(a, s, factors).inverseUnits == a.inverseUnits
  {
    if factors != [] {
      FactorsKeepUnits(a, s, factors[..|factors| - 1]);
    }
  }

  lemma EventsKeepUnits(a: Account, d: Day)
    ensures AfterEvents(a, d).inverseUnits == a.inverseUnits
  {
    var a1 := AfterFactors(a, d.session, d.factors);
    FactorsKeepUnits(a, d.session, d.factors);
    DividendsKeepUnits(a1, d);
    var a3 := DividendsSettled(DividendsRecorded(a1, d.dividends), d.session, d.costs);
    ExitsKeepUnits(a3, d.session, d.exits);
    FundingKeepsUnits(AfterExits(a3, d.session, d.exits), d);
  }

  lemma DividendsKeepUnits(a: Account, d: Day)
    ensures DividendsSettled(DividendsRecorded(a, d.dividends), d.session, d.costs).inverseUnits == a.inverseUnits
  {
    RecordGains(a, d.dividends);
  }

  lemma FundingKeepsUnits(a: Account, d: Day)
    ensures AfterYield(AfterDeposit(a, d.session, d.deposit), d.session, d.cashReturn).inverseUnits == a.inverseUnits
  {
  }

  // ----- owed tax and the year end -----

  /** Owed tax is paid out of the cash the sells leave, before any buy. */
  lemma OrdersPayTax(a: Account, d: Day, legs: set<string>)
    requires Sound(a) && DayOk(d, legs)
    ensures var b := AfterSells(a, d.session, d.sells, d.taxRates, d.costs);
      AfterOrders(a, d).taxPayable == Max(b.taxPayable - Max(b.cash, 0), 0)
  {
    var b := AfterSells(a, d.session, d.sells, d.taxRates, d.costs);
    SellsAreSafe(a, d.session, d.sells, d.taxRates, d.costs);
    SortByElements(d.buys, LargerFirst);
    BuysAreSafe(BeforeBuys(a, d), d.session, SortBy(d.buys, LargerFirst), d.costs.commissionRate);
  }

  /** At a year end the yearly bases are settled: that of the yield when cash is swept, that of the futures when there
      is an overlay.  In any other session they are kept. */
  lemma YearEndMeans(a: Account, d: Day)
    ensures var b := AfterYearEnd(a, d);
      && b.ytdCashYield == (if d.yearEnd && d.cashReturn.Some? then 0 else a.ytdCashYield)
      && b.ytdFuturesPnl == (if d.yearEnd && d.overlay.Some? then 0 else a.ytdFuturesPnl)
      && (!d.yearEnd ==> b == a)
  {
  }
}
