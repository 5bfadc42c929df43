/** What the yearly taxes are levied on: exactly the yields and the variation booked since the last settlement. */
module TaxBases {
  import opened Rounding
  import opened Overlay
  import opened Costs
  import opened Sums
  import opened Accounts
  import opened LedgerInvariants
  import opened NavGains

  /** Money booked under one kind. */
  function KindTotal(journal: seq<Entry>, kind: Kind): int {
    if journal == [] then 0
    else
      var e := journal[|journal| - 1];
      KindTotal(journal[..|journal| - 1], kind) + (if e.kind == kind then e.krw else 0)
  }

  lemma {:induction false} BookedAppend(j: seq<Entry>, es: seq<Entry>, kind: Kind)
    ensures KindTotal(j + es, kind) == KindTotal(j, kind) + KindTotal(es, kind)
  {
    if es == [] {
      assert j + es == j;
    } else {
      assert (j + es)[..|j + es| - 1] == j + es[..|es| - 1];
      BookedAppend(j, es[..|es| - 1], kind);
    }
  }

  ghost predicate NoneOf(es: seq<Entry>, kind: Kind) {
    forall e | e in es :: e.kind != kind
  }

  lemma {:induction false} NoneBooked(es: seq<Entry>, kind: Kind)
    requires NoneOf(es, kind)
    ensures KindTotal(es, kind) == 0
  {
    if es != [] {
      NoneBooked(es[..|es| - 1], kind);
    }
  }

  lemma OneBooked(e: Entry)
    ensures KindTotal([e], e.kind) == e.krw
  {
    assert [e][..0] == [];
  }

  /** From `a` to `b` the base moved by exactly what was booked under the kind. */
  ghost predicate Follows(a: Account, b: Account, moved: int, kind: Kind) {
    a.journal <= b.journal && moved == KindTotal(b.journal[|a.journal|..], kind)
  }

  lemma AppendFollows(a: Account, b: Account, es: seq<Entry>, moved: int, kind: Kind)
    requires b.journal == a.journal + es && moved == KindTotal(es, kind)
    ensures Follows(a, b, moved, kind)
  {
    assert b.journal[|a.journal|..] == es;
  }

  lemma NothingFollows(a: Account, b: Account, es: seq<Entry>, kind: Kind)
    requires b.journal == a.journal + es && NoneOf(es, kind)
    ensures Follows(a, b, 0, kind)
  {
    NoneBooked(es, kind);
    AppendFollows(a, b, es, 0, kind);
  }

  // ----- the lines of each operation -----

  /** The kinds an operation may book under. */
  function KindsOf(op: Op): set<Kind> {
    match op
    case Deposit(_, _) => {DEPOSIT}
    case Buy(_, _, _, _, _) => {BOUGHT, COMMISSION}
    case Sell(_, _, _, _, _, _) => {SOLD, COMMISSION, SELL_TAX}
    case ApplyShareFactor(_, _, _, _) => {CASH_IN_LIEU}
    case RecordDividends(_) => {}
    case SettleDividends(_, _) => {DIVIDEND, DIVIDEND_TAX}
    case CloseExit(_, _, _) => {EXIT_PROCEEDS}
    case AccrueCashYield(_, _) => {CASH_YIELD}
    case SettleCashYieldTax(_, _) => {CASH_YIELD_TAX}
    case SettleTaxPayable(_) => {TAX_PAYMENT}
    case TransferMargin(_, _) => {MARGIN_TRANSFER}
    case SettleVariation(_, _, _, _, _) => {VARIATION_MARGIN}
    case TradeFutures(_, _, _, _, _, _) => {FUTURES_TRADE, FUTURES_COMMISSION}
    case RollFutures(_, _, _, _, _) => {FUTURES_ROLL}
    case BuyInverse(_, _, _, _) => {INVERSE_BUY, INVERSE_COMMISSION}
    case SellInverse(_, _, _, _, _) => {INVERSE_SELL, INVERSE_COMMISSION, INVERSE_TAX}
    case SettleFuturesTax(_, _) => {FUTURES_TAX}
  }

  ghost predicate LinesIn(a: Account, b: Account, kinds: set<Kind>) {
    a.journal <= b.journal && forall e | e in b.journal[|a.journal|..] :: e.kind in kinds
  }

  lemma LinesAre(a: Account, b: Account, es: seq<Entry>, kinds: set<Kind>)
    requires b.journal == a.journal + es && forall e | e in es :: e.kind in kinds
    ensures LinesIn(a, b, kinds)
  {
    assert b.journal[|a.journal|..] == es;
  }

  lemma ShareLines(a: Account, op: Op)
    requires Accepts(a, op) && (op.Deposit? || op.Buy? || op.Sell? || op.ApplyShareFactor? || op.RecordDividends? || op.CloseExit?)
    ensures LinesIn(a, Apply(a, op), KindsOf(op))
  {
    var b := Apply(a, op);
    match op
    case Deposit(s, amount) => LinesAre(a, b, [Line(s, DEPOSIT, amount)], KindsOf(op));
    case Buy(s, i, q, p, c) =>
      LinesAre(a, b, [ShareLine(s, BOUGHT, i, -(q * p), q), ShareLine(s, COMMISSION, i, -c, 0)], KindsOf(op));
    case Sell(s, i, q, p, c, t) =>
      LinesAre(a, b, [ShareLine(s, SOLD, i, q * p, -q), ShareLine(s, COMMISSION, i, -c, 0),
        ShareLine(s, SELL_TAX, i, -t, 0)],
        KindsOf(op));
    case ApplyShareFactor(_, i, _, _) =>
      if Get(a.positions, i) == 0 {
        LinesAre(a, b, [], KindsOf(op));
      } else {
        LinesAre(a, b, [b.journal[|a.journal|]], KindsOf(op));
      }
    case RecordDividends(events) =>
      RecordGains(a, events);
      LinesAre(a, b, [], KindsOf(op));
    case CloseExit(s, i, p) =>
      var q := Get(a.positions, i);
      LinesAre(a, b, [ShareLine(s, EXIT_PROCEEDS, i, q * p, -q)], KindsOf(op));
  }

  lemma IncomeLines(a: Account, op: Op)
    requires Accepts(a, op) && (op.SettleDividends? || op.AccrueCashYield?)
    ensures LinesIn(a, Apply(a, op), KindsOf(op))
  {
    var b := Apply(a, op);
    var n := |a.journal|;
    assert b.journal[..n] == a.journal;
    assert forall i | n <= i < |b.journal| :: b.journal[i].kind in KindsOf(op);
  }

  lemma YieldTaxLines(a: Account, op: Op)
    requires Accepts(a, op) && op.SettleCashYieldTax?
    ensures LinesIn(a, Apply(a, op), KindsOf(op))
  {
    var b := Apply(a, op);
    var n := |a.journal|;
    assert b.journal[..n] == a.journal;
    assert forall i | n <= i < |b.journal| :: b.journal[i].kind in KindsOf(op);
  }

  lemma TaxLines(a: Account, op: Op)
    requires Accepts(a, op) && (op.SettleTaxPayable? || op.SettleFuturesTax?)
    ensures LinesIn(a, Apply(a, op), KindsOf(op))
  {
    var b := Apply(a, op);
    var n := |a.journal|;
    assert b.journal[..n] == a.journal;
    assert forall i | n <= i < |b.journal| :: b.journal[i].kind in KindsOf(op);
  }

  lemma MarginLines(a: Account, op: Op)
    requires Accepts(a, op) && (op.TransferMargin? || op.SettleVariation? || op.RollFutures?)
    ensures LinesIn(a, Apply(a, op), KindsOf(op))
  {
    var b := Apply(a, op);
    var n := |a.journal|;
    assert b.journal[..n] == a.journal;
    assert forall i | n <= i < |b.journal| :: b.journal[i].kind in KindsOf(op);
  }

  lemma TradeLines(a: Account, op: Op)
    requires Accepts(a, op) && (op.TradeFutures?)
    ensures LinesIn(a, Apply(a, op), KindsOf(op))
  {
    var b := Apply(a, op);
    var n := |a.journal|;
    assert b.journal[..n] == a.journal;
    assert forall i | n <= i < |b.journal| :: b.journal[i].kind in KindsOf(op);
  }

  lemma InverseBuyLines(a: Account, op: Op)
    requires Accepts(a, op) && (op.BuyInverse?)
    ensures LinesIn(a, Apply(a, op), KindsOf(op))
  {
    var b := Apply(a, op);
    var n := |a.journal|;
    assert b.journal[..n] == a.journal;
    assert forall i | n <= i < |b.journal| :: b.journal[i].kind in KindsOf(op);
  }

  lemma InverseSellLines(a: Account, op: Op)
    requires Accepts(a, op) && (op.SellInverse?)
    ensures LinesIn(a, Apply(a, op), KindsOf(op))
  {
    var b := Apply(a, op);
    var n := |a.journal|;
    assert b.journal[..n] == a.journal;
    assert forall i | n <= i < |b.journal| :: b.journal[i].kind in KindsOf(op);
  }

  /** Every operation only adds lines, all of its own kinds. */
  lemma OperationLines(a: Account, op: Op)
    requires Accepts(a, op)
    ensures LinesIn(a, Apply(a, op), KindsOf(op))
  {
    match op
    case SettleDividends(_, _) => IncomeLines(a, op);
    case AccrueCashYield(_, _) => IncomeLines(a, op);
    case SettleCashYieldTax(_, _) => YieldTaxLines(a, op);
    case SettleTaxPayable(_) => TaxLines(a, op);
    case SettleFuturesTax(_, _) => TaxLines(a, op);
    case TransferMargin(_, _) => MarginLines(a, op);
    case SettleVariation(_, _, _, _, _) => MarginLines(a, op);
    case RollFutures(_, _, _, _, _) => MarginLines(a, op);
    case TradeFutures(_, _, _, _, _, _) => TradeLines(a, op);
    case BuyInverse(_, _, _, _) => InverseBuyLines(a, op);
    case SellInverse(_, _, _, _, _) => InverseSellLines(a, op);
    case _ => ShareLines(a, op);
  }

  lemma OtherKind(a: Account, op: Op, kind: Kind)
    requires Accepts(a, op) && kind !in KindsOf(op)
    ensures Follows(a, Apply(a, op), 0, kind)
  {
    OperationLines(a, op);
    var b := Apply(a, op);
    var es := b.journal[|a.journal|..];
    assert b.journal == a.journal + es;
    NothingFollows(a, b, es, kind);
  }

  // ----- the bases -----

  /** Yields accrued, variation settled and money paid in, as the account counts them. */
  datatype Base = Yields | Futures | Flows

  function KindOf(base: Base): Kind {
    match base
    case Yields => CASH_YIELD
    case Futures => VARIATION_MARGIN
    case Flows => DEPOSIT
  }

  function BaseOf(a: Account, base: Base): int {
    match base
    case Yields => a.ytdCashYield
    case Futures => a.ytdFuturesPnl
    case Flows => a.externalFlow
  }

  /** The operation that starts the base anew. */
  predicate Resets(op: Op, base: Base) {
    (base.Yields? && op.SettleCashYieldTax?) || (base.Futures? && op.SettleFuturesTax?)
  }

  lemma BaseFollows(a: Account, op: Op, base: Base)
    requires Accepts(a, op) && !Resets(op, base)
    ensures Follows(a, Apply(a, op), BaseOf(Apply(a, op), base) - BaseOf(a, base), KindOf(base))
  {
    var b := Apply(a, op);
    if KindOf(base) in KindsOf(op) {
      OneLine(a, op, base);
    } else {
      OtherKind(a, op, KindOf(base));
      BaseStays(a, op, base);
    }
  }

  lemma BaseStays(a: Account, op: Op, base: Base)
    requires Accepts(a, op) && !Resets(op, base) && KindOf(base) !in KindsOf(op)
    ensures BaseOf(Apply(a, op), base) == BaseOf(a, base)
  {
    if op.RecordDividends? {
      RecordGains(a, op.events);
    }
  }

  lemma OneLine(a: Account, op: Op, base: Base)
    requires Accepts(a, op) && KindOf(base) in KindsOf(op)
    ensures Follows(a, Apply(a, op), BaseOf(Apply(a, op), base) - BaseOf(a, base), KindOf(base))
  {
    var b := Apply(a, op);
    if |b.journal| == |a.journal| {
      NothingFollows(a, b, [], KindOf(base));
    } else {
      var e := b.journal[|a.journal|];
      OneBooked(e);
      AppendFollows(a, b, [e], e.krw, KindOf(base));
    }
  }

  lemma FollowsChain(a: Account, b: Account, c: Account, x: int, y: int, kind: Kind)
    requires Follows(a, b, x, kind) && Follows(b, c, y, kind)
    ensures Follows(a, c, x + y, kind)
  {
    var n, m := |a.journal|, |b.journal|;
    assert c.journal[n..] == b.journal[n..] + c.journal[m..];
    BookedAppend(b.journal[n..], c.journal[m..], kind);
  }

  /** Over every run without a settlement the base moves by exactly what the run booked under its kind. */
  lemma {:induction false} RunBase(a: Account, ops: seq<Op>, b: Account, base: Base)
    requires RunsTo(a, ops, b) && forall op | op in ops :: !Resets(op, base)
    ensures Follows(a, b, BaseOf(b, base) - BaseOf(a, base), KindOf(base))
    decreases |ops|
  {
    if ops == [] {
      NothingFollows(a, b, [], KindOf(base));
    } else {
      var c := Apply(a, ops[0]);
      assert ops[0] in ops;
      BaseFollows(a, ops[0], base);
      RunBase(c, ops[1..], b, base);
      FollowsChain(a, c, b, BaseOf(c, base) - BaseOf(a, base), BaseOf(b, base) - BaseOf(c, base), KindOf(base));
    }
  }

  // ----- the taxes of a year -----

  lemma YearBase(a: Account, ops: seq<Op>, b: Account, base: Base)
    requires RunsTo(a, ops, b) && BaseOf(a, base) == 0 && forall op | op in ops :: !Resets(op, base)
    ensures a.journal <= b.journal && BaseOf(b, base) == KindTotal(b.journal[|a.journal|..], KindOf(base))
  {
    RunBase(a, ops, b, base);
  }

  lemma YieldTaxed(b: Account, s: int, costs: CostConfig)
    requires 0.0 <= costs.cashYieldTaxRate
    ensures var c := YieldTaxSettled(b, s, costs);
      c.ytdCashYield == 0 &&
      (b.cash - c.cash) + (c.taxPayable - b.taxPayable) == TaxOn(b.ytdCashYield, costs.cashYieldTaxRate)
  {
    TaxNonNegative(b.ytdCashYield, costs.cashYieldTaxRate);
  }

  /** Over a year that starts with an empty base, the cash-yield tax takes its rate of the yields booked, and the base
      is empty again. */
  lemma YieldYear(a: Account, ops: seq<Op>, b: Account, s: int, costs: CostConfig)
    requires RunsTo(a, ops, b) && a.ytdCashYield == 0 && 0.0 <= costs.cashYieldTaxRate
    requires forall op | op in ops :: !op.SettleCashYieldTax?
    ensures a.journal <= b.journal
    ensures var c := YieldTaxSettled(b, s, costs);
      && c.ytdCashYield == 0
      && (b.cash - c.cash) + (c.taxPayable - b.taxPayable)
         == TaxOn(KindTotal(b.journal[|a.journal|..], CASH_YIELD), costs.cashYieldTaxRate)
  {
    YearBase(a, ops, b, Yields);
    YieldTaxed(b, s, costs);
  }

  lemma FuturesTaxed(b: Account, s: int, terms: DerivativeConfig)
    requires 0.0 <= terms.futuresTaxRate
    ensures var c := FuturesTaxSettled(b, s, terms);
      c.ytdFuturesPnl == 0 &&
      b.margin - c.margin == TaxOn(b.ytdFuturesPnl - terms.annualDeduction, terms.futuresTaxRate)
  {
    TaxNonNegative(b.ytdFuturesPnl - terms.annualDeduction, terms.futuresTaxRate);
  }

  /** The futures tax takes its rate of the variation booked above the deduction, out of margin. */
  lemma FuturesYear(a: Account, ops: seq<Op>, b: Account, s: int, terms: DerivativeConfig)
    requires RunsTo(a, ops, b) && a.ytdFuturesPnl == 0 && 0.0 <= terms.futuresTaxRate
    requires forall op | op in ops :: !op.SettleFuturesTax?
    ensures a.journal <= b.journal
    ensures var c := FuturesTaxSettled(b, s, terms);
      && c.ytdFuturesPnl == 0
      && b.margin - c.margin
         == TaxOn(KindTotal(b.journal[|a.journal|..], VARIATION_MARGIN) - terms.annualDeduction, terms.futuresTaxRate)
  {
    YearBase(a, ops, b, Futures);
    FuturesTaxed(b, s, terms);
  }

  /** Bought from nothing and sold again, the inverse ETF is taxed on the price rise alone, and not at all on a fall. */
  lemma InverseRoundTrip(a: Account, s: int, s': int, units: int, price: int, price': int, rate: real, taxRate: real)
    requires 1 <= units && a.inverseUnits == 0 && a.inverseBasis == 0
    ensures var b := InverseBought(a, s, units, price, rate);
      var c := InverseSold(b, s', units, price', rate, taxRate);
      && c.inverseUnits == 0 && c.inverseBasis == 0
      && c.cash == a.cash + units * price' - units * price - InverseCommission(rate, units * price)
         - InverseCommission(rate, units * price') - TaxOn(units * price' - units * price, taxRate)
  {
    WholeBasis(units * price, units);
  }

  lemma WholeBasis(basis: int, units: int)
    requires 1 <= units
    ensures basis * units / units == basis
  {
    var q, r := basis * units / units, (basis * units) % units;
    assert basis * units == q * units + r;
    if q < basis {
      IntMulMonotone(q + 1, basis, units);
    } else if basis < q {
      IntMulMonotone(basis + 1, q, units);
    }
  }
}
