/** The value of a ledger and what each booking operation does to it. */
module Accounts {
  import opened Options
  import opened Rounding
  import opened Overlay
  import opened Costs
  import opened Sums

  datatype Fund = CASH | MARGIN | PAYABLE

  datatype Kind =
    | DEPOSIT | BOUGHT | SOLD | COMMISSION | SELL_TAX | CASH_IN_LIEU | DIVIDEND | DIVIDEND_TAX
    | EXIT_PROCEEDS | CASH_YIELD | CASH_YIELD_TAX | TAX_PAYMENT | MARGIN_TRANSFER | VARIATION_MARGIN
    | FUTURES_TRADE | FUTURES_COMMISSION | FUTURES_ROLL | FUTURES_TAX | INVERSE_BUY | INVERSE_SELL
    | INVERSE_COMMISSION | INVERSE_TAX

  /** One journal line: a KRW movement on one fund, a quantity movement, or both. */
  datatype Entry = Entry(
    session: int, kind: Kind, instrument: Option<int>, krw: int, quantity: int, fund: Fund, leg: Option<string>)

  datatype Account = Account(
    initialCash: int,
    cash: int,
    positions: map<int, int>,
    receivable: int,
    receivableByPay: map<int, int>,
    externalFlow: int,
    journal: seq<Entry>,
    ytdCashYield: int,
    taxPayable: int,
    margin: int,
    contracts: int,
    secondary: map<string, int>,
    inverseUnits: int,
    inverseBasis: int,
    ytdFuturesPnl: int)

  datatype DividendEvent = DividendEvent(instrument: int, paySession: int, dps: int)

  datatype Op =
    | Deposit(session: int, amount: int)
    | Buy(session: int, instrument: int, quantity: int, price: int, commission: int)
    | Sell(session: int, instrument: int, quantity: int, price: int, commission: int, sellTax: int)
    | ApplyShareFactor(session: int, instrument: int, factor: real, basePrice: int)
    | RecordDividends(events: seq<DividendEvent>)
    | SettleDividends(session: int, costs: CostConfig)
    | CloseExit(session: int, instrument: int, price: int)
    | AccrueCashYield(session: int, grossReturn: real)
    | SettleCashYieldTax(session: int, costs: CostConfig)
    | SettleTaxPayable(session: int)
    | TransferMargin(session: int, amount: int)
    | SettleVariation(session: int, prevLevel: real, level: real, multiplier: int, leg: string)
    | TradeFutures(session: int, contracts: int, level: real, multiplier: int, costRate: real, leg: string)
    | RollFutures(session: int, level: real, multiplier: int, costRate: real, leg: string)
    | BuyInverse(session: int, units: int, price: int, costRate: real)
    | SellInverse(session: int, units: int, price: int, costRate: real, taxRate: real)
    | SettleFuturesTax(session: int, terms: DerivativeConfig)

  function Opened(initialCash: int): Account {
    Account(initialCash, initialCash, map[], 0, map[], 0, [], 0, 0, 0, 0, map[], 0, 0, 0)
  }

  // ----- reading an account -----

  function LegContracts(a: Account, leg: string): int {
    if leg == PRIMARY_LEG then a.contracts else Get(a.secondary, leg)
  }

  /** Cash an order may commit; owed tax is never spent. */
  function SpendableCash(a: Account): int {
    Max(a.cash - a.taxPayable, 0)
  }

  /** The mark of a signed net-short position: `floor(-contracts * multiplier * level)`. */
  function FlooredMark(contracts: int, multiplier: int, level: real): int {
    -Ceil((contracts * multiplier) as real * level)
  }

  function CostUnit(rate: real, multiplier: int, level: real): real {
    rate * multiplier as real * level
  }

  function InverseCommission(rate: real, notional: int): int {
    Ceil(rate * notional as real)
  }

  // ----- entries -----

  function Line(session: int, kind: Kind, krw: int): Entry {
    Entry(session, kind, None, krw, 0, CASH, None)
  }

  function ShareLine(session: int, kind: Kind, instrument: int, krw: int, quantity: int): Entry {
    Entry(session, kind, Some(instrument), krw, quantity, CASH, None)
  }

  function JournalLeg(leg: string): Option<string> {
    if leg == PRIMARY_LEG then None else Some(leg)
  }

  function LegLine(session: int, kind: Kind, krw: int, leg: string): Entry {
    Entry(session, kind, None, krw, 0, MARGIN, JournalLeg(leg))
  }

  function TradeLine(session: int, delta: int, leg: string): Entry {
    Entry(session, FUTURES_TRADE, None, 0, delta, CASH, JournalLeg(leg))
  }

  /** An entry that is booked only when it moves something. */
  function If(condition: bool, e: Entry): seq<Entry> {
    if condition then [e] else []
  }

  function Booked(a: Account, entries: seq<Entry>): Account {
    a.(journal := a.journal + entries)
  }

  function SetPosition(positions: map<int, int>, instrument: int, quantity: int): map<int, int> {
    if quantity != 0 then positions[instrument := quantity] else positions - {instrument}
  }

  // ----- what each operation refuses -----

  predicate CostRateOk(rate: real) {
    0.0 <= rate < 1.0
  }

  predicate Accepts(a: Account, op: Op) {
    match op
    case Deposit(_, amount) => 1 <= amount
    case Buy(_, i, q, p, c) => 0 <= i && 1 <= q && 1 <= p && 0 <= c && q * p + c <= a.cash
    case Sell(_, i, q, p, c, t) => 0 <= i && 1 <= q && 1 <= p && 0 <= c && 0 <= t && q <= Get(a.positions, i)
    case ApplyShareFactor(_, i, _, _) => 0 <= i
    case RecordDividends(_) => true
    case SettleDividends(s, _) => 0 <= Get(a.receivableByPay, s)
    case CloseExit(_, i, p) => 0 <= i && 0 <= p
    case AccrueCashYield(_, r) => -1.0 < r
    case SettleCashYieldTax(_, _) => true
    case SettleTaxPayable(_) => true
    case TransferMargin(_, amount) => amount == 0 || 0 <= a.cash - amount
    case SettleVariation(_, prev, level, m, leg) => 1 <= m && (LegContracts(a, leg) == 0 || (0.0 < prev && 0.0 < level))
    case TradeFutures(_, _, level, m, rate, _) => 1 <= m && CostRateOk(rate) && 0.0 < level
    case RollFutures(_, level, m, rate, _) => 1 <= m && CostRateOk(rate) && 0.0 < level
    case BuyInverse(_, q, p, rate) =>
      1 <= q && 1 <= p && CostRateOk(rate) && q * p + InverseCommission(rate, q * p) <= a.cash
    case SellInverse(_, q, p, rate, tax) =>
      1 <= q && 1 <= p && CostRateOk(rate) && 0.0 <= tax < 1.0 && q <= a.inverseUnits
    case SettleFuturesTax(_, _) => true
  }

  // ----- what each operation does -----

  function Scaled(held: int, factor: real): real {
    held as real * factor
  }

  /** The fraction of a share left over by a factor, paid out at the base price. */
  function CashInLieu(scaled: real, basePrice: int): int {
    ((scaled - scaled.Floor as real) * basePrice as real).Floor
  }

  function ShareFactored(a: Account, s: int, i: int, factor: real, basePrice: int): Account {
    var held := Get(a.positions, i);
    if held == 0 then a
    else
      var scaled := Scaled(held, factor);
      var quantity := scaled.Floor;
      var inLieu := CashInLieu(scaled, basePrice);
      Booked(a.(positions := SetPosition(a.positions, i, quantity), cash := a.cash + inLieu),
        [ShareLine(s, CASH_IN_LIEU, i, inLieu, quantity - held)])
  }

  function DividendsRecorded(a: Account, events: seq<DividendEvent>): Account
    decreases |events|
  {
    if events == [] then a
    else
      var before := DividendsRecorded(a, events[..|events| - 1]);
      var e := events[|events| - 1];
      var amount := Get(a.positions, e.instrument) * e.dps;
      before.(receivable := before.receivable + amount,
        receivableByPay := before.receivableByPay[e.paySession := Get(before.receivableByPay, e.paySession) + amount])
  }

  function DividendsSettled(a: Account, s: int, costs: CostConfig): Account {
    var due := Get(a.receivableByPay, s);
    var popped := a.(receivableByPay := a.receivableByPay - {s});
    if due == 0 then popped
    else
      var tax := Truncated(due, costs.dividendWithholdingRate);
      Booked(popped.(receivable := a.receivable - due, cash := a.cash + due - tax),
        [Line(s, DIVIDEND, due), Line(s, DIVIDEND_TAX, -tax)])
  }

  function YieldAccrued(a: Account, s: int, rate: real): Account {
    var amount := if a.cash <= 0 then 0 else Truncated(a.cash, rate);
    if amount == 0 then a
    else Booked(a.(cash := a.cash + amount, ytdCashYield := a.ytdCashYield + amount), [Line(s, CASH_YIELD, amount)])
  }

  function YieldTaxSettled(a: Account, s: int, costs: CostConfig): Account {
    var reset := a.(ytdCashYield := 0);
    var tax := if a.ytdCashYield <= 0 then 0 else Truncated(a.ytdCashYield, costs.cashYieldTaxRate);
    if tax <= 0 then reset
    else
      var paid := Min(tax, Max(a.cash, 0));
      var unpaid := tax - paid;
      Booked(reset.(cash := a.cash - paid, taxPayable := a.taxPayable + unpaid),
        If(paid != 0, Line(s, CASH_YIELD_TAX, -paid)) +
        If(unpaid != 0, Line(s, CASH_YIELD_TAX, -unpaid).(fund := PAYABLE)))
  }

  function PayableSettled(a: Account, s: int): Account {
    var paid := Min(a.taxPayable, Max(a.cash, 0));
    if paid <= 0 then a
    else Booked(a.(taxPayable := a.taxPayable - paid, cash := a.cash - paid),
      [Line(s, TAX_PAYMENT, -paid), Line(s, TAX_PAYMENT, paid).(fund := PAYABLE)])
  }

  function MarginTransferred(a: Account, s: int, amount: int): Account {
    if amount == 0 then a
    else Booked(a.(cash := a.cash - amount, margin := a.margin + amount),
      [Line(s, MARGIN_TRANSFER, -amount), Line(s, MARGIN_TRANSFER, amount).(fund := MARGIN)])
  }

  /** The daily settlement of a held leg: the change of its floored mark. */
  function Variation(a: Account, prev: real, level: real, multiplier: int, leg: string): int {
    var held := LegContracts(a, leg);
    if held == 0 then 0 else FlooredMark(held, multiplier, level) - FlooredMark(held, multiplier, prev)
  }

  function VariationSettled(a: Account, s: int, prev: real, level: real, multiplier: int, leg: string): Account {
    var delta := Variation(a, prev, level, multiplier, leg);
    if delta == 0 then a
    else Booked(a.(margin := a.margin + delta, ytdFuturesPnl := a.ytdFuturesPnl + delta),
      [LegLine(s, VARIATION_MARGIN, delta, leg)])
  }

  function LegSet(a: Account, leg: string, contracts: int): (b: Account)
    ensures forall other: string :: LegContracts(b, other) == if other == leg then contracts else LegContracts(a, other)
  {
    if leg == PRIMARY_LEG then a.(contracts := contracts)
    else a.(secondary := if contracts != 0 then a.secondary[leg := contracts] else a.secondary - {leg})
  }

  function FuturesTraded(a: Account, s: int, contracts: int, unit: real, leg: string): Account {
    var delta := contracts - LegContracts(a, leg);
    if delta == 0 then a
    else
      var commission := Commission(unit, delta);
      Booked(LegSet(a, leg, contracts).(margin := a.margin - Max(commission, 0)),
        [TradeLine(s, delta, leg)] + If(commission > 0, LegLine(s, FUTURES_COMMISSION, -commission, leg)))
  }

  function FuturesRolled(a: Account, s: int, unit: real, leg: string): Account {
    var held := LegContracts(a, leg);
    var cost := Commission(unit, held);
    if held == 0 || cost <= 0 then a
    else Booked(a.(margin := a.margin - cost), [LegLine(s, FUTURES_ROLL, -cost, leg)])
  }

  function InverseBought(a: Account, s: int, units: int, price: int, rate: real): Account {
    var notional := units * price;
    var commission := InverseCommission(rate, notional);
    Booked(
      a.(cash := a.cash - (notional + commission), inverseUnits := a.inverseUnits + units,
         inverseBasis := a.inverseBasis + notional),
      [Line(s, INVERSE_BUY, -notional).(quantity := units)] +
      If(commission > 0, Line(s, INVERSE_COMMISSION, -commission)))
  }

  function InverseSold(a: Account, s: int, units: int, price: int, rate: real, taxRate: real): Account
    requires a.inverseUnits != 0
  {
    var proceeds := units * price;
    var commission := InverseCommission(rate, proceeds);
    var basisSold := a.inverseBasis * units / a.inverseUnits;
    var gain := proceeds - basisSold;
    var tax := if gain > 0 then Truncated(gain, taxRate) else 0;
    Booked(
      a.(inverseUnits := a.inverseUnits - units, inverseBasis := a.inverseBasis - basisSold,
         cash := a.cash + (proceeds - commission - tax)),
      [Line(s, INVERSE_SELL, proceeds).(quantity := -units)] +
      If(commission > 0, Line(s, INVERSE_COMMISSION, -commission)) +
      If(tax > 0, Line(s, INVERSE_TAX, -tax)))
  }

  function FuturesTaxSettled(a: Account, s: int, terms: DerivativeConfig): Account {
    var reset := a.(ytdFuturesPnl := 0);
    var taxable := a.ytdFuturesPnl - terms.annualDeduction;
    var tax := if taxable <= 0 then 0 else Truncated(taxable, terms.futuresTaxRate);
    if tax <= 0 then reset
    else Booked(reset.(margin := a.margin - tax), [Line(s, FUTURES_TAX, -tax).(fund := MARGIN)])
  }

  function Deposited(a: Account, s: int, amount: int): Account {
    Booked(a.(cash := a.cash + amount, externalFlow := a.externalFlow + amount), [Line(s, DEPOSIT, amount)])
  }

  function Bought(a: Account, s: int, i: int, q: int, p: int, c: int): Account {
    Booked(a.(cash := a.cash - (q * p + c), positions := a.positions[i := Get(a.positions, i) + q]),
      [ShareLine(s, BOUGHT, i, -(q * p), q), ShareLine(s, COMMISSION, i, -c, 0)])
  }

  function Sold(a: Account, s: int, i: int, q: int, p: int, c: int, t: int): Account {
    Booked(
      a.(cash := a.cash + (q * p - c - t), positions := SetPosition(a.positions, i, Get(a.positions, i) - q)),
      [ShareLine(s, SOLD, i, q * p, -q), ShareLine(s, COMMISSION, i, -c, 0), ShareLine(s, SELL_TAX, i, -t, 0)])
  }

  function ExitClosed(a: Account, s: int, i: int, p: int): Account {
    var q := Get(a.positions, i);
    Booked(a.(cash := a.cash + q * p, positions := a.positions - {i}), [ShareLine(s, EXIT_PROCEEDS, i, q * p, -q)])
  }

  /** The account after an accepted operation. */
  function Apply(a: Account, op: Op): Account
    requires Accepts(a, op)
  {
    match op
    case Deposit(s, amount) => Deposited(a, s, amount)
    case Buy(s, i, q, p, c) => Bought(a, s, i, q, p, c)
    case Sell(s, i, q, p, c, t) => Sold(a, s, i, q, p, c, t)
    case ApplyShareFactor(s, i, factor, base) => ShareFactored(a, s, i, factor, base)
    case RecordDividends(events) => DividendsRecorded(a, events)
    case SettleDividends(s, costs) => DividendsSettled(a, s, costs)
    case CloseExit(s, i, p) => ExitClosed(a, s, i, p)
    case AccrueCashYield(s, rate) => YieldAccrued(a, s, rate)
    case SettleCashYieldTax(s, costs) => YieldTaxSettled(a, s, costs)
    case SettleTaxPayable(s) => PayableSettled(a, s)
    case TransferMargin(s, amount) => MarginTransferred(a, s, amount)
    case SettleVariation(s, prev, level, m, leg) => VariationSettled(a, s, prev, level, m, leg)
    case TradeFutures(s, k, level, m, rate, leg) => FuturesTraded(a, s, k, CostUnit(rate, m, level), leg)
    case RollFutures(s, level, m, rate, leg) => FuturesRolled(a, s, CostUnit(2.0 * rate, m, level), leg)
    case BuyInverse(s, q, p, rate) => InverseBought(a, s, q, p, rate)
    case SellInverse(s, q, p, rate, tax) => InverseSold(a, s, q, p, rate, tax)
    case SettleFuturesTax(s, terms) => FuturesTaxSettled(a, s, terms)
  }
}
