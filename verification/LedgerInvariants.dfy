/** What every run of booking operations keeps: each balance is its journal sum, the receivable is
    the sum of what is due by pay session, and free cash stays non-negative. */
module LedgerInvariants {
  import opened Options
  import opened Rounding
  import opened Overlay
  import opened Costs
  import opened Sums
  import opened Accounts

  // ----- journal sums -----

  /** The balances a journal determines. */
  datatype Measure = Money(fund: Fund) | Shares(instrument: int) | Contracts(leg: string) | InverseHolding

  /** Movement of one measure by one entry. */
  function Delta(e: Entry, m: Measure): int {
    match m
    case Money(fund) => if e.fund == fund then e.krw else 0
    case Shares(i) =>
      if e.kind in {BOUGHT, SOLD, CASH_IN_LIEU, EXIT_PROCEEDS} && e.instrument == Some(i) then e.quantity else 0
    case Contracts(leg) => if e.kind == FUTURES_TRADE && e.leg == JournalLeg(leg) then e.quantity else 0
    case InverseHolding => if e.kind in {INVERSE_BUY, INVERSE_SELL} then e.quantity else 0
  }

  function JournalSum(journal: seq<Entry>, m: Measure): int {
    if journal == [] then 0 else JournalSum(journal[..|journal| - 1], m) + Delta(journal[|journal| - 1], m)
  }

  /** The balance the account reports, as a change since opening. */
  function Balance(a: Account, m: Measure): int {
    match m
    case Money(CASH) => a.cash - a.initialCash
    case Money(MARGIN) => a.margin
    case Money(PAYABLE) => -a.taxPayable
    case Shares(i) => Get(a.positions, i)
    case Contracts(leg) => LegContracts(a, leg)
    case InverseHolding => a.inverseUnits
  }

  /** Every balance equals its journal sum. */
  ghost predicate Reconciled(a: Account) {
    forall m: Measure :: Balance(a, m) == JournalSum(a.journal, m)
  }

  lemma {:induction false} JournalSumAppend(j: seq<Entry>, es: seq<Entry>, m: Measure)
    ensures JournalSum(j + es, m) == JournalSum(j, m) + JournalSum(es, m)
  {
    if es == [] {
      assert j + es == j;
    } else {
      assert (j + es)[..|j + es| - 1] == j + es[..|es| - 1];
      JournalSumAppend(j, es[..|es| - 1], m);
    }
  }

  lemma SumOfOne(e: Entry, m: Measure)
    ensures JournalSum([e], m) == Delta(e, m)
  {
    assert [e][..0] == [];
  }

  lemma SumOfIf(condition: bool, e: Entry, m: Measure)
    ensures JournalSum(If(condition, e), m) == if condition then Delta(e, m) else 0
  {
    if condition {
      SumOfOne(e, m);
    }
  }

  lemma SumOfTwo(e: Entry, f: Entry, m: Measure)
    ensures JournalSum([e, f], m) == Delta(e, m) + Delta(f, m)
  {
    assert [e, f] == [e] + [f];
    JournalSumAppend([e], [f], m);
    SumOfOne(e, m);
    SumOfOne(f, m);
  }

  // ----- each operation books exactly what it moves -----

  /** From `a` to `b` the journal only grew, and every balance moved by exactly what was added. */
  ghost predicate Books(a: Account, b: Account) {
    && b.initialCash == a.initialCash
    && a.journal <= b.journal
    && forall m: Measure :: Balance(b, m) - Balance(a, m) == JournalSum(b.journal, m) - JournalSum(a.journal, m)
  }

  lemma BooksTransitive(a: Account, b: Account, c: Account)
    requires Books(a, b) && Books(b, c)
    ensures Books(a, c)
  {
    forall m: Measure
      ensures Balance(c, m) - Balance(a, m) == JournalSum(c.journal, m) - JournalSum(a.journal, m)
    {
      assert Balance(b, m) - Balance(a, m) == JournalSum(b.journal, m) - JournalSum(a.journal, m);
      assert Balance(c, m) - Balance(b, m) == JournalSum(c.journal, m) - JournalSum(b.journal, m);
    }
  }

  /** The common step: appending `es` while moving every balance by the sum of `es`. */
  lemma BooksBy(a: Account, b: Account, es: seq<Entry>)
    requires b.initialCash == a.initialCash && b.journal == a.journal + es
    requires forall m: Measure :: Balance(b, m) == Balance(a, m) + JournalSum(es, m)
    ensures Books(a, b)
  {
    forall m: Measure
      ensures Balance(b, m) - Balance(a, m) == JournalSum(b.journal, m) - JournalSum(a.journal, m)
    {
      assert Balance(b, m) == Balance(a, m) + JournalSum(es, m);
      JournalSumAppend(a.journal, es, m);
    }
  }

  lemma OneEntryBooks(a: Account, b: Account, e: Entry)
    requires b.initialCash == a.initialCash && b.journal == a.journal + [e]
    requires forall m: Measure :: Balance(b, m) == Balance(a, m) + Delta(e, m)
    ensures Books(a, b)
  {
    forall m: Measure ensures Balance(b, m) == Balance(a, m) + JournalSum([e], m) {
      SumOfOne(e, m);
      assert Balance(b, m) == Balance(a, m) + Delta(e, m);
    }
    BooksBy(a, b, [e]);
  }

  lemma TwoEntriesBook(a: Account, b: Account, e: Entry, f: Entry)
    requires b.initialCash == a.initialCash && b.journal == a.journal + [e, f]
    requires forall m: Measure :: Balance(b, m) == Balance(a, m) + (Delta(e, m) + Delta(f, m))
    ensures Books(a, b)
  {
    forall m: Measure ensures Balance(b, m) == Balance(a, m) + JournalSum([e, f], m) {
      SumOfTwo(e, f, m);
      assert Balance(b, m) == Balance(a, m) + (Delta(e, m) + Delta(f, m));
    }
    BooksBy(a, b, [e, f]);
  }

  lemma SameBooks(a: Account, b: Account)
    requires b.initialCash == a.initialCash && b.journal == a.journal
    requires forall m: Measure :: Balance(b, m) == Balance(a, m)
    ensures Books(a, b)
  {
  }

  /** Booking an entry only when it moves something. */
  lemma IfEntryBooks(a: Account, b: Account, condition: bool, e: Entry)
    requires b.initialCash == a.initialCash && b.journal == a.journal + If(condition, e)
    requires forall m: Measure :: Balance(b, m) == Balance(a, m) + (if condition then Delta(e, m) else 0)
    ensures Books(a, b)
  {
    if condition {
      OneEntryBooks(a, b, e);
    } else {
      SameBooks(a, b);
    }
  }

  function SaleCharges(charged: bool, f: Entry, taxed: bool, g: Entry, m: Measure): int {
    (if charged then Delta(f, m) else 0) + (if taxed then Delta(g, m) else 0)
  }

  lemma SaleEntriesBook(a: Account, b: Account, e: Entry, charged: bool, f: Entry, taxed: bool, g: Entry)
    requires b.initialCash == a.initialCash && b.journal == a.journal + ([e] + If(charged, f) + If(taxed, g))
    requires forall m: Measure :: Balance(b, m) == Balance(a, m) + Delta(e, m) + SaleCharges(charged, f, taxed, g, m)
    ensures Books(a, b)
  {
    var es := [e] + If(charged, f) + If(taxed, g);
    forall m: Measure ensures Balance(b, m) == Balance(a, m) + JournalSum(es, m) {
      JournalSumAppend([e] + If(charged, f), If(taxed, g), m);
      JournalSumAppend([e], If(charged, f), m);
      SumOfOne(e, m);
      SumOfIf(charged, f, m);
      SumOfIf(taxed, g, m);
    }
    BooksBy(a, b, es);
  }

  lemma DepositBooks(a: Account, op: Op)
    requires Accepts(a, op) && op.Deposit?
    ensures Books(a, Apply(a, op))
  {
    OneEntryBooks(a, Apply(a, op), Line(op.session, DEPOSIT, op.amount));
  }

  lemma BuyBooks(a: Account, op: Op)
    requires Accepts(a, op) && op.Buy?
    ensures Books(a, Apply(a, op))
  {
    TwoEntriesBook(a, Apply(a, op),
      ShareLine(op.session, BOUGHT, op.instrument, -(op.quantity * op.price), op.quantity),
      ShareLine(op.session, COMMISSION, op.instrument, -op.commission, 0));
  }

  lemma SellBooks(a: Account, op: Op)
    requires Accepts(a, op) && op.Sell?
    ensures Books(a, Apply(a, op))
  {
    var b, n := Apply(a, op), op.quantity * op.price;
    var e := ShareLine(op.session, SOLD, op.instrument, n, -op.quantity);
    var f := ShareLine(op.session, COMMISSION, op.instrument, -op.commission, 0);
    var g := ShareLine(op.session, SELL_TAX, op.instrument, -op.sellTax, 0);
    var mid := b.(cash := a.cash + (n - op.commission), journal := a.journal + [e, f]);
    TwoEntriesBook(a, mid, e, f);
    assert mid.journal + [g] == b.journal;
    OneEntryBooks(mid, b, g);
    BooksTransitive(a, mid, b);
  }

  lemma ShareFactorBooks(a: Account, s: int, i: int, factor: real, basePrice: int)
    ensures Books(a, ShareFactored(a, s, i, factor, basePrice))
  {
    var b := ShareFactored(a, s, i, factor, basePrice);
    if Get(a.positions, i) != 0 {
      OneEntryBooks(a, b, b.journal[|a.journal|]);
    }
  }

  lemma CloseExitBooks(a: Account, op: Op)
    requires Accepts(a, op) && op.CloseExit?
    ensures Books(a, Apply(a, op))
  {
    var q := Get(a.positions, op.instrument);
    OneEntryBooks(a, Apply(a, op), ShareLine(op.session, EXIT_PROCEEDS, op.instrument, q * op.price, -q));
  }

  lemma DividendsSettledBooks(a: Account, s: int, costs: CostConfig)
    ensures Books(a, DividendsSettled(a, s, costs))
  {
    var b, due := DividendsSettled(a, s, costs), Get(a.receivableByPay, s);
    if due == 0 {
      SameBooks(a, b);
    } else {
      var tax := Truncated(due, costs.dividendWithholdingRate);
      TwoEntriesBook(a, b, Line(s, DIVIDEND, due), Line(s, DIVIDEND_TAX, -tax));
    }
  }

  lemma YieldAccruedBooks(a: Account, s: int, rate: real)
    ensures Books(a, YieldAccrued(a, s, rate))
  {
    var amount := if a.cash <= 0 then 0 else Truncated(a.cash, rate);
    if amount != 0 {
      OneEntryBooks(a, YieldAccrued(a, s, rate), Line(s, CASH_YIELD, amount));
    }
  }

  lemma YieldTaxSettledBooks(a: Account, s: int, costs: CostConfig)
    ensures Books(a, YieldTaxSettled(a, s, costs))
  {
    var b := YieldTaxSettled(a, s, costs);
    var tax := if a.ytdCashYield <= 0 then 0 else Truncated(a.ytdCashYield, costs.cashYieldTaxRate);
    if tax <= 0 {
      SameBooks(a, b);
    } else {
      var paid := Min(tax, Max(a.cash, 0));
      var e, f := Line(s, CASH_YIELD_TAX, -paid), Line(s, CASH_YIELD_TAX, -(tax - paid)).(fund := PAYABLE);
      var mid := b.(taxPayable := a.taxPayable, journal := a.journal + If(paid != 0, e));
      IfEntryBooks(a, mid, paid != 0, e);
      assert mid.journal + If(tax - paid != 0, f) == b.journal;
      IfEntryBooks(mid, b, tax - paid != 0, f);
      BooksTransitive(a, mid, b);
    }
  }

  lemma PayableSettledBooks(a: Account, s: int)
    ensures Books(a, PayableSettled(a, s))
  {
    var paid := Min(a.taxPayable, Max(a.cash, 0));
    if paid > 0 {
      TwoEntriesBook(a, PayableSettled(a, s), Line(s, TAX_PAYMENT, -paid),
        Line(s, TAX_PAYMENT, paid).(fund := PAYABLE));
    }
  }

  lemma MarginTransferredBooks(a: Account, s: int, amount: int)
    ensures Books(a, MarginTransferred(a, s, amount))
  {
    if amount != 0 {
      TwoEntriesBook(a, MarginTransferred(a, s, amount),
        Line(s, MARGIN_TRANSFER, -amount), Line(s, MARGIN_TRANSFER, amount).(fund := MARGIN));
    }
  }

  lemma VariationSettledBooks(a: Account, s: int, prev: real, level: real, multiplier: int, leg: string)
    ensures Books(a, VariationSettled(a, s, prev, level, multiplier, leg))
  {
    var delta := Variation(a, prev, level, multiplier, leg);
    if delta != 0 {
      OneEntryBooks(a, VariationSettled(a, s, prev, level, multiplier, leg), LegLine(s, VARIATION_MARGIN, delta, leg));
    }
  }

  lemma HoldingBooked(a: Account, s: int, contracts: int, leg: string)
    ensures Books(a, Booked(LegSet(a, leg, contracts), [TradeLine(s, contracts - LegContracts(a, leg), leg)]))
  {
    var e := TradeLine(s, contracts - LegContracts(a, leg), leg);
    OneEntryBooks(a, Booked(LegSet(a, leg, contracts), [e]), e);
  }

  lemma FuturesTradedBooks(a: Account, s: int, contracts: int, unit: real, leg: string)
    ensures Books(a, FuturesTraded(a, s, contracts, unit, leg))
  {
    var b, delta := FuturesTraded(a, s, contracts, unit, leg), contracts - LegContracts(a, leg);
    if delta == 0 {
      SameBooks(a, b);
    } else {
      var commission := Commission(unit, delta);
      var mid := Booked(LegSet(a, leg, contracts), [TradeLine(s, delta, leg)]);
      var f := LegLine(s, FUTURES_COMMISSION, -commission, leg);
      HoldingBooked(a, s, contracts, leg);
      assert mid.journal + If(commission > 0, f) == b.journal;
      IfEntryBooks(mid, b, commission > 0, f);
      BooksTransitive(a, mid, b);
    }
  }

  lemma FuturesRolledBooks(a: Account, s: int, unit: real, leg: string)
    ensures Books(a, FuturesRolled(a, s, unit, leg))
  {
    var held := LegContracts(a, leg);
    var cost := Commission(unit, held);
    if held != 0 && cost > 0 {
      OneEntryBooks(a, FuturesRolled(a, s, unit, leg), LegLine(s, FUTURES_ROLL, -cost, leg));
    }
  }

  lemma InverseBoughtBooks(a: Account, s: int, units: int, price: int, rate: real)
    requires 0.0 <= rate && 1 <= units && 1 <= price
    ensures Books(a, InverseBought(a, s, units, price, rate))
  {
    var b, n := InverseBought(a, s, units, price, rate), units * price;
    var commission := InverseCommission(rate, n);
    MulNonNegative(rate, n as real);
    var e, f := Line(s, INVERSE_BUY, -n).(quantity := units), Line(s, INVERSE_COMMISSION, -commission);
    var mid := b.(cash := a.cash - n, journal := a.journal + [e]);
    OneEntryBooks(a, mid, e);
    assert mid.journal + If(commission > 0, f) == b.journal;
    IfEntryBooks(mid, b, commission > 0, f);
    BooksTransitive(a, mid, b);
  }

  lemma InverseSoldBooks(a: Account, s: int, units: int, price: int, rate: real, taxRate: real)
    requires 0.0 <= rate && 0.0 <= taxRate && 1 <= units <= a.inverseUnits && 1 <= price
    ensures Books(a, InverseSold(a, s, units, price, rate, taxRate))
  {
    var b, n := InverseSold(a, s, units, price, rate, taxRate), units * price;
    var commission := InverseCommission(rate, n);
    MulNonNegative(rate, n as real);
    var gain := n - a.inverseBasis * units / a.inverseUnits;
    var tax := if gain > 0 then Truncated(gain, taxRate) else 0;
    assert 0 <= tax by { if gain > 0 { TruncatedBounds(gain, taxRate); } }
    SaleEntriesBook(a, b, Line(s, INVERSE_SELL, n).(quantity := -units),
      commission > 0, Line(s, INVERSE_COMMISSION, -commission), tax > 0, Line(s, INVERSE_TAX, -tax));
  }

  lemma FuturesTaxSettledBooks(a: Account, s: int, terms: DerivativeConfig)
    ensures Books(a, FuturesTaxSettled(a, s, terms))
  {
    var b := FuturesTaxSettled(a, s, terms);
    var taxable := a.ytdFuturesPnl - terms.annualDeduction;
    var tax := if taxable <= 0 then 0 else Truncated(taxable, terms.futuresTaxRate);
    if tax <= 0 {
      SameBooks(a, b);
    } else {
      OneEntryBooks(a, b, Line(s, FUTURES_TAX, -tax).(fund := MARGIN));
    }
  }

  lemma {:induction false} DividendsRecordedKeeps(a: Account, events: seq<DividendEvent>)
    ensures var b := DividendsRecorded(a, events);
      b == a.(receivable := b.receivable, receivableByPay := b.receivableByPay)
    decreases |events|
  {
    if events != [] {
      DividendsRecordedKeeps(a, events[..|events| - 1]);
    }
  }

  lemma ApplyShareOpBooks(a: Account, op: Op)
    requires Accepts(a, op)
    requires op.Deposit? || op.Buy? || op.Sell? || op.ApplyShareFactor? || op.CloseExit? || op.RecordDividends?
    ensures Books(a, Apply(a, op))
  {
    match op
    case Deposit(_, _) => DepositBooks(a, op);
    case Buy(_, _, _, _, _) => BuyBooks(a, op);
    case Sell(_, _, _, _, _, _) => SellBooks(a, op);
    case ApplyShareFactor(s, i, factor, base) => ShareFactorBooks(a, s, i, factor, base);
    case CloseExit(_, _, _) => CloseExitBooks(a, op);
    case RecordDividends(events) => DividendsRecordedKeeps(a, events); SameBooks(a, Apply(a, op));
  }

  lemma ApplyCashOpBooks(a: Account, op: Op)
    requires Accepts(a, op)
    requires op.SettleDividends? || op.AccrueCashYield? || op.SettleCashYieldTax? || op.SettleTaxPayable?
          || op.TransferMargin?
    ensures Books(a, Apply(a, op))
  {
    match op
    case SettleDividends(s, costs) => DividendsSettledBooks(a, s, costs);
    case AccrueCashYield(s, rate) => YieldAccruedBooks(a, s, rate);
    case SettleCashYieldTax(s, costs) => YieldTaxSettledBooks(a, s, costs);
    case SettleTaxPayable(s) => PayableSettledBooks(a, s);
    case TransferMargin(s, amount) => MarginTransferredBooks(a, s, amount);
  }

  lemma SettleVariationBooks(a: Account, op: Op)
    requires Accepts(a, op) && op.SettleVariation?
    ensures Books(a, Apply(a, op))
  {
    VariationSettledBooks(a, op.session, op.prevLevel, op.level, op.multiplier, op.leg);
  }

  lemma TradeFuturesBooks(a: Account, op: Op)
    requires Accepts(a, op) && op.TradeFutures?
    ensures Books(a, Apply(a, op))
  {
    FuturesTradedBooks(a, op.session, op.contracts, CostUnit(op.costRate, op.multiplier, op.level), op.leg);
  }

  lemma RollFuturesBooks(a: Account, op: Op)
    requires Accepts(a, op) && op.RollFutures?
    ensures Books(a, Apply(a, op))
  {
    FuturesRolledBooks(a, op.session, CostUnit(2.0 * op.costRate, op.multiplier, op.level), op.leg);
  }

  lemma SettleFuturesTaxBooks(a: Account, op: Op)
    requires Accepts(a, op) && op.SettleFuturesTax?
    ensures Books(a, Apply(a, op))
  {
    FuturesTaxSettledBooks(a, op.session, op.terms);
  }

  lemma ApplyInverseOpBooks(a: Account, op: Op)
    requires Accepts(a, op) && (op.BuyInverse? || op.SellInverse?)
    ensures Books(a, Apply(a, op))
  {
    match op
    case BuyInverse(s, q, p, rate) => InverseBoughtBooks(a, s, q, p, rate);
    case SellInverse(s, q, p, rate, tax) => InverseSoldBooks(a, s, q, p, rate, tax);
  }

  /** Every accepted operation books exactly what it moves. */
  lemma ApplyBooks(a: Account, op: Op)
    requires Accepts(a, op)
    ensures Books(a, Apply(a, op))
  {
    if op.SettleDividends? || op.AccrueCashYield? || op.SettleCashYieldTax? || op.SettleTaxPayable? || op.TransferMargin? {
      ApplyCashOpBooks(a, op);
    } else if op.Deposit? || op.Buy? || op.Sell? || op.ApplyShareFactor? || op.CloseExit? || op.RecordDividends? {
      ApplyShareOpBooks(a, op);
    } else if op.BuyInverse? || op.SellInverse? {
      ApplyInverseOpBooks(a, op);
    } else if op.SettleVariation? {
      SettleVariationBooks(a, op);
    } else if op.TradeFutures? {
      TradeFuturesBooks(a, op);
    } else if op.RollFutures? {
      RollFuturesBooks(a, op);
    } else {
      SettleFuturesTaxBooks(a, op);
    }
  }

  // ----- the structural invariants every operation keeps -----

  /** No journal needed: what the remaining fields always satisfy. */
  ghost predicate Consistent(a: Account) {
    && a.receivable == MapSum(a.receivableByPay)
    && 0 <= a.taxPayable
    && 0 <= a.inverseUnits && 0 <= a.inverseBasis
    && (0 < a.inverseBasis <==> 0 < a.inverseUnits)
    && PRIMARY_LEG !in a.secondary
    && (forall leg | leg in a.secondary :: a.secondary[leg] != 0)
  }

  /** Holdings are positive, dues are non-negative and free cash is not overdrawn. */
  ghost predicate Healthy(a: Account) {
    && 0 <= a.cash
    && (forall i | i in a.positions :: 0 < a.positions[i])
    && (forall s | s in a.receivableByPay :: 0 <= a.receivableByPay[s])
  }

  lemma {:induction false} DividendsRecordedConsistent(a: Account, events: seq<DividendEvent>)
    requires a.receivable == MapSum(a.receivableByPay)
    ensures var b := DividendsRecorded(a, events); b.receivable == MapSum(b.receivableByPay)
    decreases |events|
  {
    if events != [] {
      var before := DividendsRecorded(a, events[..|events| - 1]);
      DividendsRecordedConsistent(a, events[..|events| - 1]);
      var e := events[|events| - 1];
      MapSumUpdate(before.receivableByPay, e.paySession,
        Get(before.receivableByPay, e.paySession) + Get(a.positions, e.instrument) * e.dps);
    }
  }

  lemma {:induction false} DividendsRecordedHealthy(a: Account, events: seq<DividendEvent>)
    requires Healthy(a) && forall e | e in events :: 0 <= e.dps
    ensures Healthy(DividendsRecorded(a, events))
    decreases |events|
  {
    DividendsRecordedKeeps(a, events);
    if events != [] {
      DividendsRecordedHealthy(a, events[..|events| - 1]);
      var e := events[|events| - 1];
      assert e in events;
      assert 0 <= Get(a.positions, e.instrument) * e.dps;
    }
  }

  /** Selling part of an average-cost lot leaves a positive basis; selling all of it leaves none. */
  lemma BasisSold(basis: int, units: int, sold: int)
    requires 0 < basis && 1 <= sold <= units
    ensures 0 <= basis * sold / units <= basis
    ensures basis * sold / units == basis <==> sold == units
  {
    if sold == units {
      QuotientIs(basis * sold, units, basis);
    } else {
      IntMulMonotone(sold, units - 1, basis);
      assert (units - 1) * basis == basis * units - basis;
      IntMulMonotone(0, sold, basis);
      QuotientBetween(basis * sold, units, 0, basis);
    }
  }

  lemma DividendOpConsistent(a: Account, op: Op)
    requires Accepts(a, op) && Consistent(a) && (op.RecordDividends? || op.SettleDividends?)
    ensures Consistent(Apply(a, op))
  {
    if op.RecordDividends? {
      DividendsRecordedKeeps(a, op.events);
      DividendsRecordedConsistent(a, op.events);
    } else {
      MapSumDelete(a.receivableByPay, op.session);
    }
  }

  lemma InverseOpConsistent(a: Account, op: Op)
    requires Accepts(a, op) && Consistent(a) && (op.BuyInverse? || op.SellInverse?)
    ensures Consistent(Apply(a, op))
  {
    if op.SellInverse? {
      BasisSold(a.inverseBasis, a.inverseUnits, op.units);
    } else {
      IntMulMonotone(1, op.units, op.price);
    }
  }

  lemma PlainOpConsistent(a: Account, op: Op)
    requires Accepts(a, op) && Consistent(a)
    requires op.Deposit? || op.Buy? || op.Sell? || op.ApplyShareFactor? || op.CloseExit? || op.AccrueCashYield?
          || op.SettleCashYieldTax? || op.SettleTaxPayable?
    ensures Consistent(Apply(a, op))
  {
  }

  lemma MarginOpConsistent(a: Account, op: Op)
    requires Accepts(a, op) && Consistent(a)
    requires op.TransferMargin? || op.SettleVariation? || op.TradeFutures? || op.RollFutures? || op.SettleFuturesTax?
    ensures Consistent(Apply(a, op))
  {
  }

  /** Every accepted operation keeps the structural invariants. */
  lemma ApplyConsistent(a: Account, op: Op)
    requires Accepts(a, op) && Consistent(a)
    ensures Consistent(Apply(a, op))
  {
    if op.RecordDividends? || op.SettleDividends? {
      DividendOpConsistent(a, op);
    } else if op.BuyInverse? || op.SellInverse? {
      InverseOpConsistent(a, op);
    } else if op.TransferMargin? || op.SettleVariation? || op.TradeFutures? || op.RollFutures? || op.SettleFuturesTax? {
      MarginOpConsistent(a, op);
    } else {
      PlainOpConsistent(a, op);
    }
  }

  // ----- free cash is never overdrawn -----

  /** What the engine guarantees about the amounts it passes: a sale covers its own charges, rates are
      within range, share factors are positive and dividends per share non-negative. */
  ghost predicate Priced(op: Op) {
    match op
    case Sell(_, _, q, p, c, t) => c + t <= q * p
    case ApplyShareFactor(_, _, factor, base) => 0.0 < factor && 0 <= base
    case RecordDividends(events) => forall e | e in events :: 0 <= e.dps
    case SettleDividends(_, costs) => costs.Valid()
    case SettleCashYieldTax(_, costs) => costs.Valid()
    case SellInverse(_, _, _, rate, tax) => rate + tax <= 1.0
    case _ => true
  }

  lemma ShareFactorHealthy(a: Account, s: int, i: int, factor: real, base: int)
    requires Healthy(a) && 0.0 < factor && 0 <= base
    ensures Healthy(ShareFactored(a, s, i, factor, base))
  {
    var held := Get(a.positions, i);
    if held != 0 {
      var scaled := Scaled(held, factor);
      MulNonNegative(held as real, factor);
      MulNonNegative(scaled - scaled.Floor as real, base as real);
    }
  }

  lemma CeilAndFloorAtMost(x: real, y: real, n: int)
    requires x + y <= n as real
    ensures Ceil(x) + y.Floor <= n
  {
  }

  lemma GainTaxAtMost(proceeds: real, gain: int, taxRate: real, tax: real)
    requires 0.0 <= proceeds && gain as real <= proceeds && 0.0 <= taxRate
    requires tax == if gain > 0 then gain as real * taxRate else 0.0
    ensures tax <= proceeds * taxRate
  {
    if gain > 0 {
      MulMonotone(taxRate, gain as real, proceeds);
    } else {
      MulNonNegative(proceeds, taxRate);
    }
  }

  /** The proceeds of an inverse sale cover its rounded-up commission and its truncated tax. */
  lemma InverseSaleCovers(proceeds: int, gain: int, rate: real, taxRate: real)
    requires 0 <= proceeds && gain <= proceeds
    requires 0.0 <= rate && 0.0 <= taxRate && rate + taxRate <= 1.0
    ensures InverseCommission(rate, proceeds) + (if gain > 0 then Truncated(gain, taxRate) else 0) <= proceeds
  {
    var x := proceeds as real;
    var tax := if gain > 0 then gain as real * taxRate else 0.0;
    SharesAtMost(x, rate, taxRate);
    GainTaxAtMost(x, gain, taxRate, tax);
    assert x * rate == rate * x;
    CeilAndFloorAtMost(rate * x, tax, proceeds);
  }

  lemma InverseSoldHealthy(a: Account, s: int, units: int, price: int, rate: real, taxRate: real)
    requires Healthy(a) && Consistent(a)
    requires 1 <= units <= a.inverseUnits && 1 <= price
    requires 0.0 <= rate && 0.0 <= taxRate && rate + taxRate <= 1.0
    ensures Healthy(InverseSold(a, s, units, price, rate, taxRate))
  {
    BasisSold(a.inverseBasis, a.inverseUnits, units);
    IntMulMonotone(0, units, price);
    InverseSaleCovers(units * price, units * price - a.inverseBasis * units / a.inverseUnits, rate, taxRate);
  }

  lemma YieldAccruedHealthy(a: Account, s: int, rate: real)
    requires Healthy(a) && -1.0 < rate
    ensures Healthy(YieldAccrued(a, s, rate))
  {
    var c := a.cash as real;
    MulMonotone(c, -1.0, rate);
    assert (-a.cash) as real <= c * rate;
    assert -a.cash <= Truncated(a.cash, rate);
  }

  lemma DividendsSettledHealthy(a: Account, s: int, costs: CostConfig)
    requires Healthy(a) && costs.Valid()
    ensures Healthy(DividendsSettled(a, s, costs))
  {
    var due := Get(a.receivableByPay, s);
    TruncatedBounds(due, costs.dividendWithholdingRate);
  }

  lemma ShareOpHealthy(a: Account, op: Op)
    requires Accepts(a, op) && Priced(op) && Healthy(a)
    requires op.Buy? || op.Sell? || op.CloseExit?
    ensures Healthy(Apply(a, op))
  {
    if op.CloseExit? {
      IntMulMonotone(0, Get(a.positions, op.instrument), op.price);
    }
  }

  /** Every accepted, engine-priced operation keeps free cash non-negative. */
  lemma ApplyHealthy(a: Account, op: Op)
    requires Accepts(a, op) && Priced(op) && Healthy(a) && Consistent(a)
    ensures Healthy(Apply(a, op))
  {
    if op.Buy? || op.Sell? || op.CloseExit? {
      ShareOpHealthy(a, op);
    } else if op.SellInverse? {
      InverseSoldHealthy(a, op.session, op.units, op.price, op.costRate, op.taxRate);
    } else if op.ApplyShareFactor? {
      ShareFactorHealthy(a, op.session, op.instrument, op.factor, op.basePrice);
    } else if op.RecordDividends? {
      DividendsRecordedHealthy(a, op.events);
    } else if op.SettleDividends? {
      DividendsSettledHealthy(a, op.session, op.costs);
    } else if op.AccrueCashYield? {
      YieldAccruedHealthy(a, op.session, op.grossReturn);
    }
  }

  // ----- every run -----

  /** `ops` runs from `a` to `b` without a refusal. */
  ghost predicate RunsTo(a: Account, ops: seq<Op>, b: Account)
    decreases |ops|
  {
    if ops == [] then a == b
    else Accepts(a, ops[0]) && RunsTo(Apply(a, ops[0]), ops[1..], b)
  }

  /** From any account whose books balance, every run of operations leaves balanced books: cash, margin
      and payable equal their journal sums, holdings their quantity sums, the receivable its map. */
  lemma {:induction false} RunKeepsBooks(a: Account, ops: seq<Op>, b: Account)
    requires RunsTo(a, ops, b) && Consistent(a)
    ensures Books(a, b) && Consistent(b)
    decreases |ops|
  {
    if ops != [] {
      var c := Apply(a, ops[0]);
      ApplyBooks(a, ops[0]);
      ApplyConsistent(a, ops[0]);
      RunKeepsBooks(c, ops[1..], b);
      BooksTransitive(a, c, b);
    }
  }

  lemma {:induction false} RunKeepsHealth(a: Account, ops: seq<Op>, b: Account)
    requires RunsTo(a, ops, b) && Consistent(a) && Healthy(a)
    requires forall op | op in ops :: Priced(op)
    ensures Healthy(b) && Consistent(b)
    decreases |ops|
  {
    if ops != [] {
      ApplyHealthy(a, ops[0]);
      ApplyConsistent(a, ops[0]);
      RunKeepsHealth(Apply(a, ops[0]), ops[1..], b);
    }
  }

  /** The ledger's accounting law over whole runs from opening. */
  lemma EveryRunReconciles(initialCash: nat, ops: seq<Op>, b: Account)
    requires RunsTo(Opened(initialCash), ops, b)
    ensures Reconciled(b) && Consistent(b)
    ensures (forall op | op in ops :: Priced(op)) ==> Healthy(b)
  {
    var a := Opened(initialCash);
    RunKeepsBooks(a, ops, b);
    forall m: Measure ensures Balance(b, m) == JournalSum(b.journal, m) {
      assert Balance(a, m) == 0;
    }
    if forall op | op in ops :: Priced(op) {
      RunKeepsHealth(a, ops, b);
    }
  }
}
