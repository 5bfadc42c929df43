/** What each ledger operation makes or loses at given marks: prices against marks, charges, income and taxes. */
module NavGains {
  import opened Rounding
  import opened Overlay
  import opened Sums
  import opened Accounts
  import opened LedgerInvariants
  import opened Nav
  import opened Exposure

  /** Dividends on the holdings, event by event. */
  function DividendsOn(positions: map<int, int>, events: seq<DividendEvent>): int {
    if events == [] then 0
    else
      var e := events[|events| - 1];
      DividendsOn(positions, events[..|events| - 1]) + Get(positions, e.instrument) * e.dps
  }

  /** A tax: the rate on a positive base, rounded down. */
  function TaxOn(base: int, rate: real): int {
    if base <= 0 then 0 else (base as real * rate).Floor
  }

  /** The rate on the exposure of `k` contracts, rounded up. */
  function ChargeOn(rate: real, k: int, multiplier: int, level: real): int {
    Ceil(rate * (Abs(k) as real * multiplier as real * level))
  }

  /** Whole shares at the mark, and the fraction at the base price. */
  function FactorGain(held: int, factor: real, base: int, mark: int): int {
    var scaled := held as real * factor;
    (scaled.Floor - held) * mark + ((scaled - scaled.Floor as real) * base as real).Floor
  }

  function ShareGain(a: Account, op: Op, price: int -> int): int {
    match op
    case Buy(_, i, q, p, c) => q * (price(i) - p) - c
    case Sell(_, i, q, p, c, t) => q * (p - price(i)) - c - t
    case ApplyShareFactor(_, i, factor, base) => FactorGain(Get(a.positions, i), factor, base, price(i))
    case CloseExit(_, i, p) => Get(a.positions, i) * (p - price(i))
    case _ => 0
  }

  function MoneyGain(a: Account, op: Op): int {
    match op
    case Deposit(_, amount) => amount
    case RecordDividends(events) => DividendsOn(a.positions, events)
    case SettleDividends(s, costs) => -TaxOn(Get(a.receivableByPay, s), costs.dividendWithholdingRate)
    case AccrueCashYield(_, rate) => if a.cash > 0 then (a.cash as real * rate).Floor else 0
    case SettleCashYieldTax(_, costs) => -TaxOn(a.ytdCashYield, costs.cashYieldTaxRate)
    case SettleTaxPayable(_) => 0
    case TransferMargin(_, _) => 0
    case SettleFuturesTax(_, terms) => -TaxOn(a.ytdFuturesPnl - terms.annualDeduction, terms.futuresTaxRate)
    case _ => 0
  }

  function DerivativeGain(a: Account, op: Op, inversePrice: int): int {
    match op
    case SettleVariation(_, prev, level, m, leg) =>
      FlooredMark(LegContracts(a, leg), m, level) - FlooredMark(LegContracts(a, leg), m, prev)
    case TradeFutures(_, k, level, m, rate, leg) => -ChargeOn(rate, k - LegContracts(a, leg), m, level)
    case RollFutures(_, level, m, rate, leg) => -ChargeOn(2.0 * rate, LegContracts(a, leg), m, level)
    case BuyInverse(_, q, p, rate) => q * (inversePrice - p) - InverseCommission(rate, q * p)
    case SellInverse(_, q, p, rate, tax) =>
      var gain := q * p - (if a.inverseUnits == 0 then 0 else a.inverseBasis * q / a.inverseUnits);
      q * (p - inversePrice) - InverseCommission(rate, q * p) - TaxOn(gain, tax)
    case _ => 0
  }

  /** Rates of taxes are not negative. */
  predicate TaxRatesOk(op: Op) {
    && (op.SettleDividends? ==> 0.0 <= op.costs.dividendWithholdingRate)
    && (op.SettleCashYieldTax? ==> 0.0 <= op.costs.cashYieldTaxRate)
    && (op.SettleFuturesTax? ==> 0.0 <= op.terms.futuresTaxRate)
  }

  lemma TaxNonNegative(base: int, rate: real)
    requires 0.0 <= rate
    ensures 0 <= TaxOn(base, rate)
  {
    if base > 0 {
      MulNonNegative(base as real, rate);
    }
  }

  // ----- holdings at the marks -----

  lemma PositionSet(positions: map<int, int>, i: int, q: int, price: int -> int)
    ensures MarketValue(SetPosition(positions, i, q), price)
         == MarketValue(positions, price) + (q - Get(positions, i)) * price(i)
  {
    var before, next := Values(positions, positions.Keys, price), SetPosition(positions, i, q);
    var after := Values(next, next.Keys, price);
    Distribute(q, -Get(positions, i), price(i));
    assert (-Get(positions, i)) * price(i) == -(Get(positions, i) * price(i));
    if q != 0 {
      assert after == before[i := q * price(i)];
      MapSumUpdate(before, i, q * price(i));
    } else {
      assert after == before - {i};
      MapSumDelete(before, i);
    }
  }

  // ----- operation by operation -----

  ghost predicate Gains(a: Account, b: Account, price: int -> int, inversePrice: int, gain: int) {
    NavOf(b, price, inversePrice) == NavOf(a, price, inversePrice) + gain
  }

  /** Nothing but money moved. */
  lemma MoneyMoves(a: Account, b: Account, price: int -> int, inversePrice: int, gain: int)
    requires b.positions == a.positions && b.inverseUnits == a.inverseUnits
    requires b.cash + b.receivable + b.margin - b.taxPayable == a.cash + a.receivable + a.margin - a.taxPayable + gain
    ensures Gains(a, b, price, inversePrice, gain)
  {
  }

  lemma SharesMove(a: Account, b: Account, i: int, q: int, price: int -> int, inversePrice: int, money: int)
    requires b.positions == SetPosition(a.positions, i, q)
    requires b == a.(positions := b.positions, cash := a.cash + money, journal := b.journal)
    ensures Gains(a, b, price, inversePrice, (q - Get(a.positions, i)) * price(i) + money)
  {
    PositionSet(a.positions, i, q, price);
  }

  lemma BuyGains(a: Account, op: Op, price: int -> int, inversePrice: int)
    requires op.Buy? && Accepts(a, op) && 0 <= Get(a.positions, op.instrument)
    ensures Gains(a, Apply(a, op), price, inversePrice, ShareGain(a, op, price))
  {
    var i, q := op.instrument, op.quantity;
    SharesMove(a, Apply(a, op), i, Get(a.positions, i) + q, price, inversePrice, -(q * op.price + op.commission));
    assert q * (price(i) - op.price) == q * price(i) - q * op.price;
  }

  lemma SoldGains(a: Account, s: int, i: int, q: int, p: int, c: int, t: int, price: int -> int, inversePrice: int)
    ensures Gains(a, Sold(a, s, i, q, p, c, t), price, inversePrice, q * (p - price(i)) - c - t)
  {
    var mark := price(i);
    SharesMove(a, Sold(a, s, i, q, p, c, t), i, Get(a.positions, i) - q, price, inversePrice, q * p - c - t);
    MarkedDown(q, p, mark);
    assert Get(a.positions, i) - q - Get(a.positions, i) == -q;
  }

  lemma MarkedDown(q: int, p: int, mark: int)
    ensures (-q) * mark + q * p == q * (p - mark)
  {
  }

  lemma FactoredGains(a: Account, s: int, i: int, factor: real, basePrice: int, price: int -> int, inversePrice: int)
    ensures Gains(a, ShareFactored(a, s, i, factor, basePrice), price, inversePrice,
      FactorGain(Get(a.positions, i), factor, basePrice, price(i)))
  {
    var held := Get(a.positions, i);
    if held == 0 {
      NothingToFactor(factor, basePrice, price(i));
    } else {
      var scaled := Scaled(held, factor);
      SharesMove(a, ShareFactored(a, s, i, factor, basePrice), i, scaled.Floor, price, inversePrice,
        CashInLieu(scaled, basePrice));
    }
  }

  lemma NothingToFactor(factor: real, basePrice: int, mark: int)
    ensures FactorGain(0, factor, basePrice, mark) == 0
  {
    assert 0 as real * factor == 0.0;
    assert (0.0 * basePrice as real).Floor == 0;
    assert 0 * mark == 0;
  }

  lemma ExitGains(a: Account, op: Op, price: int -> int, inversePrice: int)
    requires op.CloseExit? && Accepts(a, op)
    ensures Gains(a, Apply(a, op), price, inversePrice, ShareGain(a, op, price))
  {
    var i := op.instrument;
    var q := Get(a.positions, i);
    SharesMove(a, Apply(a, op), i, 0, price, inversePrice, q * op.price);
    MarkedDown(q, op.price, price(i));
  }

  lemma {:induction false} RecordGains(a: Account, events: seq<DividendEvent>)
    ensures var b := DividendsRecorded(a, events);
      b == a.(receivable := a.receivable + DividendsOn(a.positions, events), receivableByPay := b.receivableByPay)
  {
    if events != [] {
      RecordGains(a, events[..|events| - 1]);
    }
  }

  lemma IncomeGains(a: Account, op: Op, price: int -> int, inversePrice: int)
    requires Accepts(a, op) && (op.Deposit? || op.RecordDividends? || op.SettleDividends? || op.AccrueCashYield?)
    ensures Gains(a, Apply(a, op), price, inversePrice, MoneyGain(a, op))
  {
    if op.RecordDividends? {
      RecordGains(a, op.events);
    }
    MoneyMoves(a, Apply(a, op), price, inversePrice, MoneyGain(a, op));
  }

  lemma TaxGains(a: Account, op: Op, price: int -> int, inversePrice: int)
    requires Accepts(a, op) && TaxRatesOk(op)
    requires op.SettleCashYieldTax? || op.SettleTaxPayable? || op.TransferMargin? || op.SettleFuturesTax?
    ensures Gains(a, Apply(a, op), price, inversePrice, MoneyGain(a, op))
  {
    if op.SettleCashYieldTax? {
      TaxNonNegative(a.ytdCashYield, op.costs.cashYieldTaxRate);
    } else if op.SettleFuturesTax? {
      TaxNonNegative(a.ytdFuturesPnl - op.terms.annualDeduction, op.terms.futuresTaxRate);
    }
    MoneyMoves(a, Apply(a, op), price, inversePrice, MoneyGain(a, op));
  }

  lemma ChargeIsCommission(rate: real, k: int, multiplier: int, level: real)
    requires 0.0 <= rate && 1 <= multiplier && 0.0 < level
    ensures Commission(CostUnit(rate, multiplier, level), k) == ChargeOn(rate, k, multiplier, level) >= 0
    ensures k == 0 ==> ChargeOn(rate, k, multiplier, level) == 0
  {
    var m := multiplier as real;
    RateOfExposure(rate, Abs(k) as real, m, level);
    MulNonNegative(rate, m);
    MulNonNegative(rate * m, level);
    CommissionNonNegative(CostUnit(rate, multiplier, level), k);
  }

  lemma FlatIsUnmarked(m: int, level: real)
    ensures FlooredMark(0, m, level) == 0
  {
    assert (0 * m) as real * level == 0.0;
  }

  lemma FuturesGain(a: Account, op: Op, price: int -> int, inversePrice: int)
    requires Accepts(a, op) && (op.SettleVariation? || op.TradeFutures? || op.RollFutures?)
    ensures Gains(a, Apply(a, op), price, inversePrice, DerivativeGain(a, op, inversePrice))
  {
    var held := LegContracts(a, op.leg);
    if op.SettleVariation? {
      FlatIsUnmarked(op.multiplier, op.level);
      FlatIsUnmarked(op.multiplier, op.prevLevel);
    } else if op.TradeFutures? {
      ChargeIsCommission(op.costRate, op.contracts - held, op.multiplier, op.level);
    } else {
      ChargeIsCommission(2.0 * op.costRate, held, op.multiplier, op.level);
    }
    MoneyMoves(a, Apply(a, op), price, inversePrice, DerivativeGain(a, op, inversePrice));
  }

  lemma InverseBuyGain(a: Account, s: int, q: int, p: int, rate: real, price: int -> int, inversePrice: int)
    ensures Gains(a, InverseBought(a, s, q, p, rate), price, inversePrice,
      q * (inversePrice - p) - InverseCommission(rate, q * p))
  {
    UnitsMove(a, InverseBought(a, s, q, p, rate), q, price, inversePrice);
    assert q * (inversePrice - p) == q * inversePrice - q * p;
  }

  lemma InverseSellGain(a: Account, s: int, q: int, p: int, rate: real, tax: real, price: int -> int, inversePrice: int)
    requires a.inverseUnits != 0
    ensures Gains(a, InverseSold(a, s, q, p, rate, tax), price, inversePrice,
      q * (p - inversePrice) - InverseCommission(rate, q * p) - TaxOn(q * p - a.inverseBasis * q / a.inverseUnits, tax))
  {
    UnitsMove(a, InverseSold(a, s, q, p, rate, tax), -q, price, inversePrice);
    MarkedDown(q, p, inversePrice);
  }

  lemma UnitsMove(a: Account, b: Account, q: int, price: int -> int, inversePrice: int)
    requires b == a.(cash := b.cash, inverseUnits := a.inverseUnits + q, inverseBasis := b.inverseBasis,
      journal := b.journal)
    ensures Gains(a, b, price, inversePrice, q * inversePrice + b.cash - a.cash)
  {
    Distribute(a.inverseUnits, q, inversePrice);
  }

  /** Every accepted operation moves the value at any marks by exactly its gain. */
  lemma OperationGains(a: Account, op: Op, price: int -> int, inversePrice: int)
    requires Accepts(a, op) && TaxRatesOk(op) && Healthy(a)
    ensures Gains(a, Apply(a, op), price, inversePrice,
      ShareGain(a, op, price) + MoneyGain(a, op) + DerivativeGain(a, op, inversePrice))
  {
    match op
    case Buy(_, _, _, _, _) => BuyGains(a, op, price, inversePrice);
    case Sell(s, i, q, p, c, t) => SoldGains(a, s, i, q, p, c, t, price, inversePrice);
    case ApplyShareFactor(s, i, factor, base) => FactoredGains(a, s, i, factor, base, price, inversePrice);
    case CloseExit(_, _, _) => ExitGains(a, op, price, inversePrice);
    case SettleVariation(_, _, _, _, _) => FuturesGain(a, op, price, inversePrice);
    case TradeFutures(_, _, _, _, _, _) => FuturesGain(a, op, price, inversePrice);
    case RollFutures(_, _, _, _, _) => FuturesGain(a, op, price, inversePrice);
    case BuyInverse(s, q, p, rate) => InverseBuyGain(a, s, q, p, rate, price, inversePrice);
    case SellInverse(s, q, p, rate, tax) => InverseSellGain(a, s, q, p, rate, tax, price, inversePrice);
    case SettleCashYieldTax(_, _) => TaxGains(a, op, price, inversePrice);
    case SettleTaxPayable(_) => TaxGains(a, op, price, inversePrice);
    case TransferMargin(_, _) => TaxGains(a, op, price, inversePrice);
    case SettleFuturesTax(_, _) => TaxGains(a, op, price, inversePrice);
    case _ => IncomeGains(a, op, price, inversePrice);
  }

  function GainOf(a: Account, op: Op, price: int -> int, inversePrice: int): int {
    ShareGain(a, op, price) + MoneyGain(a, op) + DerivativeGain(a, op, inversePrice)
  }

  /** The gains of a run, each at the account it starts from. */
  ghost function RunGain(a: Account, ops: seq<Op>, price: int -> int, inversePrice: int): int
    decreases |ops|
  {
    if ops == [] || !Accepts(a, ops[0]) then 0
    else GainOf(a, ops[0], price, inversePrice) + RunGain(Apply(a, ops[0]), ops[1..], price, inversePrice)
  }

  /** Over every run of priced operations the value at any marks moves by the gains alone. */
  lemma {:induction false} RunGains(a: Account, ops: seq<Op>, b: Account, price: int -> int, inversePrice: int)
    requires RunsTo(a, ops, b) && Consistent(a) && Healthy(a)
    requires forall op | op in ops :: Priced(op) && TaxRatesOk(op)
    ensures Gains(a, b, price, inversePrice, RunGain(a, ops, price, inversePrice))
    decreases |ops|
  {
    if ops != [] {
      var op := ops[0];
      assert op in ops;
      OperationGains(a, op, price, inversePrice);
      ApplyConsistent(a, op);
      ApplyHealthy(a, op);
      RunGains(Apply(a, op), ops[1..], b, price, inversePrice);
    }
  }
}
