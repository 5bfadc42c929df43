/** The ledger object: every booking method checks its arguments, updates the fields and appends to
    the journal, and is proved to do exactly what the account operation of the same name does. */
module Ledgers {
  import opened Rounding
  import opened Overlay
  import opened Costs
  import opened Sums
  import opened Accounts

  method FuturesCommission(rate: real, delta: int, multiplier: int, level: real) returns (krw: int)
    ensures krw == Commission(CostUnit(rate, multiplier, level), delta)
  {
    krw := CeilAmountKrw(rate, [Abs(delta) as real, multiplier as real, level]);
    ProductOfThree(rate, Abs(delta) as real, multiplier as real, level);
    assert krw == CeilTimes(CostUnit(rate, multiplier, level), Abs(delta));
  }

  class Ledger {
    const initialCash: int
    var cash: int
    var positions: map<int, int>
    var receivable: int
    var receivableByPay: map<int, int>
    var externalFlow: int
    var journal: seq<Entry>
    var ytdCashYield: int
    var taxPayable: int
    var margin: int
    var contracts: int
    var secondary: map<string, int>
    var inverseUnits: int
    var inverseBasis: int
    var ytdFuturesPnl: int

    function View(): Account
      reads this
    {
      Account(initialCash, cash, positions, receivable, receivableByPay, externalFlow, journal, ytdCashYield,
        taxPayable, margin, contracts, secondary, inverseUnits, inverseBasis, ytdFuturesPnl)
    }

    constructor (initialCash: nat)
      ensures View() == Opened(initialCash)
    {
      this.initialCash := initialCash;
      cash := initialCash;
      positions, receivable, receivableByPay, externalFlow := map[], 0, map[], 0;
      journal, ytdCashYield, taxPayable, margin, contracts := [], 0, 0, 0, 0;
      secondary, inverseUnits, inverseBasis, ytdFuturesPnl := map[], 0, 0, 0;
    }

    method Deposit(session: int, amount: int) returns (ok: bool)
      modifies this`cash, this`externalFlow, this`journal
      ensures ok == Accepts(old(View()), Op.Deposit(session, amount))
      ensures View() == if ok then Deposited(old(View()), session, amount) else old(View())
    {
      ok := 1 <= amount;
      if ok {
        cash := cash + amount;
        externalFlow := externalFlow + amount;
        journal := journal + [Line(session, DEPOSIT, amount)];
      }
    }

    method Buy(session: int, instrument: int, quantity: int, price: int, commission: int) returns (ok: bool)
      modifies this`cash, this`positions, this`journal
      ensures ok == Accepts(old(View()), Op.Buy(session, instrument, quantity, price, commission))
      ensures View() == if ok then Bought(old(View()), session, instrument, quantity, price, commission)
                        else old(View())
    {
      ok := 0 <= instrument && 1 <= quantity && 1 <= price && 0 <= commission;
      if ok {
        var total := quantity * price + commission;
        if total > cash {
          return false;
        }
        cash := cash - total;
        positions := positions[instrument := Get(positions, instrument) + quantity];
        journal := journal +
          [ShareLine(session, BOUGHT, instrument, -(quantity * price), quantity),
           ShareLine(session, COMMISSION, instrument, -commission, 0)];
      }
    }

    method Sell(session: int, instrument: int, quantity: int, price: int, commission: int, sellTax: int)
      returns (ok: bool)
      modifies this`cash, this`positions, this`journal
      ensures ok == Accepts(old(View()), Op.Sell(session, instrument, quantity, price, commission, sellTax))
      ensures View() == if ok then Sold(old(View()), session, instrument, quantity, price, commission, sellTax)
                        else old(View())
    {
      ok := 0 <= instrument && 1 <= quantity && 1 <= price && 0 <= commission && 0 <= sellTax;
      if ok {
        var held := Get(positions, instrument);
        if quantity > held {
          return false;
        }
        var remaining := held - quantity;
        if remaining != 0 {
          positions := positions[instrument := remaining];
        } else {
          positions := positions - {instrument};
        }
        cash := cash + (quantity * price - commission - sellTax);
        journal := journal +
          [ShareLine(session, SOLD, instrument, quantity * price, -quantity),
           ShareLine(session, COMMISSION, instrument, -commission, 0),
           ShareLine(session, SELL_TAX, instrument, -sellTax, 0)];
      }
    }

    method ApplyShareFactor(session: int, instrument: int, factor: real, basePrice: int) returns (ok: bool)
      modifies this`cash, this`positions, this`journal
      ensures ok == Accepts(old(View()), Op.ApplyShareFactor(session, instrument, factor, basePrice))
      ensures View() == if ok then ShareFactored(old(View()), session, instrument, factor, basePrice)
                        else old(View())
    {
      ok := 0 <= instrument;
      var held := Get(positions, instrument);
      if !ok || held == 0 {
        return;
      }
      var scaled := Scaled(held, factor);
      var newQuantity := scaled.Floor;
      var cashInLieu := CashInLieu(scaled, basePrice);
      if newQuantity != 0 {
        positions := positions[instrument := newQuantity];
      } else {
        positions := positions - {instrument};
      }
      cash := cash + cashInLieu;
      journal := journal + [ShareLine(session, CASH_IN_LIEU, instrument, cashInLieu, newQuantity - held)];
    }

    method RecordDividendEntitlements(events: seq<DividendEvent>)
      modifies this`receivable, this`receivableByPay
      ensures View() == DividendsRecorded(old(View()), events)
    {
      for i := 0 to |events|
        invariant View() == DividendsRecorded(old(View()), events[..i])
        invariant positions == old(positions)
      {
        var event := events[i];
        assert events[..i + 1][..i] == events[..i];
        var amount := Get(positions, event.instrument) * event.dps;
        receivable := receivable + amount;
        receivableByPay := receivableByPay[event.paySession := Get(receivableByPay, event.paySession) + amount];
      }
      assert events[..|events|] == events;
    }

    /** A negative due is refused after the due has been taken out of the map. */
    method SettleDividends(session: int, config: CostConfig) returns (ok: bool)
      modifies this`cash, this`receivable, this`receivableByPay, this`journal
      ensures ok == Accepts(old(View()), Op.SettleDividends(session, config))
      ensures View() == if ok then DividendsSettled(old(View()), session, config)
                        else old(View()).(receivableByPay := old(receivableByPay) - {session})
    {
      var due := Get(receivableByPay, session);
      receivableByPay := receivableByPay - {session};
      ok := 0 <= due;
      if due > 0 {
        var tax := Truncated(due, config.dividendWithholdingRate);
        receivable := receivable - due;
        cash := cash + due - tax;
        journal := journal +
          [Line(session, DIVIDEND, due),
           Line(session, DIVIDEND_TAX, -tax)];
      }
    }

    method CloseExit(session: int, instrument: int, price: int) returns (ok: bool)
      modifies this`cash, this`positions, this`journal
      ensures ok == Accepts(old(View()), Op.CloseExit(session, instrument, price))
      ensures View() == if ok then ExitClosed(old(View()), session, instrument, price) else old(View())
    {
      ok := 0 <= instrument && 0 <= price;
      if ok {
        var quantity := Get(positions, instrument);
        positions := positions - {instrument};
        var proceeds := quantity * price;
        cash := cash + proceeds;
        journal := journal + [ShareLine(session, EXIT_PROCEEDS, instrument, proceeds, -quantity)];
      }
    }

    method AccrueCashYield(session: int, grossReturn: real) returns (ok: bool)
      modifies this`cash, this`ytdCashYield, this`journal
      ensures ok == Accepts(old(View()), Op.AccrueCashYield(session, grossReturn))
      ensures View() == if ok then YieldAccrued(old(View()), session, grossReturn) else old(View())
    {
      ok := -1.0 < grossReturn;
      if !ok || cash <= 0 {
        return;
      }
      var amount := Truncated(cash, grossReturn);
      if amount == 0 {
        return;
      }
      cash := cash + amount;
      ytdCashYield := ytdCashYield + amount;
      journal := journal + [Line(session, CASH_YIELD, amount)];
    }

    method SettleCashYieldTax(session: int, config: CostConfig)
      modifies this`cash, this`ytdCashYield, this`taxPayable, this`journal
      ensures View() == YieldTaxSettled(old(View()), session, config)
    {
      var ytd := ytdCashYield;
      ytdCashYield := 0;
      if ytd <= 0 {
        return;
      }
      var tax := Truncated(ytd, config.cashYieldTaxRate);
      if tax <= 0 {
        return;
      }
      var paid := Min(tax, Max(cash, 0));
      var entries := [];
      if paid != 0 {
        cash := cash - paid;
        entries := [Line(session, CASH_YIELD_TAX, -paid)];
      }
      var unpaid := tax - paid;
      if unpaid != 0 {
        taxPayable := taxPayable + unpaid;
        entries := entries + [Line(session, CASH_YIELD_TAX, -unpaid).(fund := PAYABLE)];
      }
      assert entries == If(paid != 0, Line(session, CASH_YIELD_TAX, -paid)) +
        If(unpaid != 0, Line(session, CASH_YIELD_TAX, -unpaid).(fund := PAYABLE));
      journal := journal + entries;
    }

    method SettleTaxPayable(session: int)
      modifies this`cash, this`taxPayable, this`journal
      ensures View() == PayableSettled(old(View()), session)
    {
      var due := taxPayable;
      if due <= 0 {
        return;
      }
      var paid := Min(due, Max(cash, 0));
      if paid <= 0 {
        return;
      }
      taxPayable := taxPayable - paid;
      cash := cash - paid;
      journal := journal +
        [Line(session, TAX_PAYMENT, -paid),
         Line(session, TAX_PAYMENT, paid).(fund := PAYABLE)];
    }

    method TransferMargin(session: int, amount: int) returns (ok: bool)
      modifies this`cash, this`margin, this`journal
      ensures ok == Accepts(old(View()), Op.TransferMargin(session, amount))
      ensures View() == if ok then MarginTransferred(old(View()), session, amount) else old(View())
    {
      if amount == 0 {
        return true;
      }
      if cash - amount < 0 {
        return false;
      }
      cash := cash - amount;
      margin := margin + amount;
      journal := journal +
        [Line(session, MARGIN_TRANSFER, -amount),
         Line(session, MARGIN_TRANSFER, amount).(fund := MARGIN)];
      return true;
    }

    method SettleVariation(session: int, prevLevel: real, level: real, multiplier: int, leg: string)
      returns (ok: bool)
      modifies this`margin, this`ytdFuturesPnl, this`journal
      ensures ok == Accepts(old(View()), Op.SettleVariation(session, prevLevel, level, multiplier, leg))
      ensures View() == if ok then VariationSettled(old(View()), session, prevLevel, level, multiplier, leg)
                        else old(View())
    {
      if multiplier < 1 {
        return false;
      }
      var held := LegContracts(View(), leg);
      if held == 0 {
        return true;
      }
      if prevLevel <= 0.0 || level <= 0.0 {
        return false;
      }
      var delta := FlooredMark(held, multiplier, level) - FlooredMark(held, multiplier, prevLevel);
      if delta == 0 {
        return true;
      }
      margin := margin + delta;
      ytdFuturesPnl := ytdFuturesPnl + delta;
      journal := journal + [LegLine(session, VARIATION_MARGIN, delta, leg)];
      return true;
    }

    method SetLeg(leg: string, target: int)
      modifies this`contracts, this`secondary
      ensures View() == LegSet(old(View()), leg, target)
    {
      if leg == PRIMARY_LEG {
        contracts := target;
      } else if target != 0 {
        secondary := secondary[leg := target];
      } else {
        secondary := secondary - {leg};
      }
    }

    method TradeFutures(session: int, target: int, level: real, multiplier: int, costRate: real, leg: string)
      returns (ok: bool)
      modifies this`margin, this`contracts, this`secondary, this`journal
      ensures ok == Accepts(old(View()), Op.TradeFutures(session, target, level, multiplier, costRate, leg))
      ensures View() == if ok then FuturesTraded(old(View()), session, target, CostUnit(costRate, multiplier, level),
        leg)
                        else old(View())
    {
      if multiplier < 1 || !CostRateOk(costRate) || level <= 0.0 {
        return false;
      }
      var delta := target - LegContracts(View(), leg);
      if delta == 0 {
        return true;
      }
      SetLeg(leg, target);
      var entries := [TradeLine(session, delta, leg)];
      var commission := FuturesCommission(costRate, delta, multiplier, level);
      if commission > 0 {
        margin := margin - commission;
        entries := entries + [LegLine(session, FUTURES_COMMISSION, -commission, leg)];
      }
      assert entries == [TradeLine(session, delta, leg)] +
        If(commission > 0, LegLine(session, FUTURES_COMMISSION, -commission, leg));
      journal := journal + entries;
      return true;
    }

    method RollFutures(session: int, level: real, multiplier: int, costRate: real, leg: string) returns (ok: bool)
      modifies this`margin, this`journal
      ensures ok == Accepts(old(View()), Op.RollFutures(session, level, multiplier, costRate, leg))
      ensures View() == if ok then FuturesRolled(old(View()), session, CostUnit(2.0 * costRate, multiplier, level), leg)
                        else old(View())
    {
      if multiplier < 1 || !CostRateOk(costRate) || level <= 0.0 {
        return false;
      }
      var held := LegContracts(View(), leg);
      if held == 0 {
        return true;
      }
      var cost := FuturesCommission(2.0 * costRate, held, multiplier, level);
      if cost <= 0 {
        return true;
      }
      margin := margin - cost;
      journal := journal + [LegLine(session, FUTURES_ROLL, -cost, leg)];
      return true;
    }

    method BuyInverse(session: int, units: int, price: int, costRate: real) returns (ok: bool)
      modifies this`cash, this`inverseUnits, this`inverseBasis, this`journal
      ensures ok == Accepts(old(View()), Op.BuyInverse(session, units, price, costRate))
      ensures View() == if ok then InverseBought(old(View()), session, units, price, costRate) else old(View())
    {
      if units < 1 || price < 1 || !CostRateOk(costRate) {
        return false;
      }
      var commission := InverseCommission(costRate, units * price);
      var total := units * price + commission;
      if total > cash {
        return false;
      }
      cash := cash - total;
      inverseUnits := inverseUnits + units;
      inverseBasis := inverseBasis + units * price;
      var entries := [Line(session, INVERSE_BUY, -(units * price)).(quantity := units)];
      if commission > 0 {
        entries := entries + [Line(session, INVERSE_COMMISSION, -commission)];
      }
      assert entries == [Line(session, INVERSE_BUY, -(units * price)).(quantity := units)] +
        If(commission > 0, Line(session, INVERSE_COMMISSION, -commission));
      journal := journal + entries;
      return true;
    }

    method SellInverse(session: int, units: int, price: int, costRate: real, taxRate: real) returns (ok: bool)
      modifies this`cash, this`inverseUnits, this`inverseBasis, this`journal
      ensures ok == Accepts(old(View()), Op.SellInverse(session, units, price, costRate, taxRate))
      ensures View() == if ok then InverseSold(old(View()), session, units, price, costRate, taxRate) else old(View())
    {
      if units < 1 || price < 1 || !CostRateOk(costRate) || taxRate < 0.0 || 1.0 <= taxRate || units > inverseUnits {
        return false;
      }
      var proceeds := units * price;
      var commission := InverseCommission(costRate, proceeds);
      var basisSold := inverseBasis * units / inverseUnits;
      var gain := proceeds - basisSold;
      var tax := if gain > 0 then Truncated(gain, taxRate) else 0;
      inverseUnits := inverseUnits - units;
      inverseBasis := inverseBasis - basisSold;
      cash := cash + (proceeds - commission - tax);
      var entries := [Line(session, INVERSE_SELL, proceeds).(quantity := -units)];
      if commission > 0 {
        entries := entries + [Line(session, INVERSE_COMMISSION, -commission)];
      }
      if tax > 0 {
        entries := entries + [Line(session, INVERSE_TAX, -tax)];
      }
      assert entries == [Line(session, INVERSE_SELL, proceeds).(quantity := -units)] +
        If(commission > 0, Line(session, INVERSE_COMMISSION, -commission)) +
        If(tax > 0, Line(session, INVERSE_TAX, -tax));
      journal := journal + entries;
      return true;
    }

    method SettleFuturesTax(session: int, config: DerivativeConfig)
      modifies this`margin, this`ytdFuturesPnl, this`journal
      ensures View() == FuturesTaxSettled(old(View()), session, config)
    {
      var ytd := ytdFuturesPnl;
      ytdFuturesPnl := 0;
      var taxable := ytd - config.annualDeduction;
      if taxable <= 0 {
        return;
      }
      var tax := Truncated(taxable, config.futuresTaxRate);
      if tax <= 0 {
        return;
      }
      margin := margin - tax;
      journal := journal + [Line(session, FUTURES_TAX, -tax).(fund := MARGIN)];
    }
  }
}
