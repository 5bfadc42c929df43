/** Broker commission, sell tax and dividend withholding, each truncated to whole KRW. */
module Costs {
  import opened Rounding

  datatype Side = BUY | SELL

  datatype CostConfig = CostConfig(
    commissionRate: real,
    dividendWithholdingRate: real,
    cashYieldTaxRate: real)
  {
    /** What construction of the configuration accepts; it does not bound the commission rate. */
    ghost predicate Valid() {
      && 0.0 <= dividendWithholdingRate < 1.0
      && 0.0 <= cashYieldTaxRate < 1.0
    }
  }

  datatype FillCosts = FillCosts(commission: int, sellTax: int)

  /** `floor(amount * rate)`. */
  function Truncated(amount: int, rate: real): int {
    (amount as real * rate).Floor
  }

  function FillCost(side: Side, quantity: int, price: int, sellTaxRate: real, config: CostConfig): FillCosts {
    var notional := quantity * price;
    FillCosts(
      Truncated(notional, config.commissionRate),
      if side == SELL then Truncated(notional, sellTaxRate) else 0)
  }

  lemma TruncatedBounds(amount: int, rate: real)
    requires 0 <= amount && 0.0 <= rate
    ensures 0 <= Truncated(amount, rate)
    ensures rate <= 1.0 ==> Truncated(amount, rate) <= amount
  {
    MulNonNegative(amount as real, rate);
    if rate <= 1.0 {
      MulAtMost(amount as real, rate);
    }
  }

  lemma FloorsAtMost(x: real, y: real, n: int)
    requires x + y <= n as real
    ensures x.Floor + y.Floor <= n
  {
  }

  /** A sale never costs more than it brings in, provided the two rates together do not exceed one. */
  lemma SaleCoversItsCosts(quantity: int, price: int, sellTaxRate: real, config: CostConfig)
    requires 0 <= quantity && 0 <= price
    requires 0.0 <= config.commissionRate && 0.0 <= sellTaxRate
    requires config.commissionRate + sellTaxRate <= 1.0
    ensures var c := FillCost(SELL, quantity, price, sellTaxRate, config);
      0 <= c.commission && 0 <= c.sellTax && c.commission + c.sellTax <= quantity * price
  {
    var n := quantity * price;
    var x := n as real;
    TruncatedBounds(n, config.commissionRate);
    TruncatedBounds(n, sellTaxRate);
    SharesAtMost(x, config.commissionRate, sellTaxRate);
    FloorsAtMost(x * config.commissionRate, x * sellTaxRate, n);
  }

  /** Above one, some sale costs more than it brings in: two truncations lose less than two KRW, so a large
      enough notional exposes the excess. */
  lemma SomeSaleLoses(sellTaxRate: real, config: CostConfig) returns (quantity: nat)
    requires 1.0 < config.commissionRate + sellTaxRate
    ensures var c := FillCost(SELL, quantity, 1, sellTaxRate, config); quantity < c.commission + c.sellTax
  {
    var excess := config.commissionRate + sellTaxRate - 1.0;
    quantity := Ceil(2.0 / excess);
    var x := quantity as real;
    assert 0.0 < 2.0 / excess <= x;
    MulMonotone(excess, 2.0 / excess, x);
    assert excess * (2.0 / excess) == 2.0;
    assert x * config.commissionRate + x * sellTaxRate == x + excess * x;
    assert quantity * 1 == quantity;
  }

  /** Exactly when every sale covers its own charges. */
  lemma SalesCoverExactly(sellTaxRate: real, config: CostConfig)
    requires 0.0 <= config.commissionRate && 0.0 <= sellTaxRate
    ensures (forall quantity: nat, price: nat ::
        var c := FillCost(SELL, quantity, price, sellTaxRate, config);
        c.commission + c.sellTax <= quantity * price)
      <==> config.commissionRate + sellTaxRate <= 1.0
  {
    if config.commissionRate + sellTaxRate <= 1.0 {
      forall quantity: nat, price: nat
        ensures var c := FillCost(SELL, quantity, price, sellTaxRate, config);
          c.commission + c.sellTax <= quantity * price
      {
        SaleCoversItsCosts(quantity, price, sellTaxRate, config);
      }
    } else {
      var quantity := SomeSaleLoses(sellTaxRate, config);
      assert FillCost(SELL, quantity, 1, sellTaxRate, config).commission +
        FillCost(SELL, quantity, 1, sellTaxRate, config).sellTax > quantity * 1;
    }
  }
}
