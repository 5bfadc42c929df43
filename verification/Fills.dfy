/** Applying priced fills to a ledger: sells within the holding, buys within spendable cash, and the
    inverse-ETF trade toward its target value. */
module Fills {
  import opened Rounding
  import opened Overlay
  import opened Costs
  import opened Sums
  import opened Sorting
  import opened Accounts
  import opened LedgerInvariants
  import opened Ledgers

  datatype Order = Order(instrument: int, side: Side, quantity: int, decisionSession: int)
  datatype Fill = Fill(order: Order, quantity: int, price: int)

  // ----- the largest affordable quantity -----

  /** Step down from `start` to the first quantity whose cost fits. */
  function StepDown(start: int, cost: int -> int, spendable: int): int
    decreases start
  {
    if start <= 0 || cost(start) <= spendable then start else StepDown(start - 1, cost, spendable)
  }

  /** At least the notional is charged for any quantity, and nothing for none. */
  ghost predicate ChargesNotional(cost: int -> int, price: int) {
    cost(0) == 0 && forall q: int | 0 < q :: q * price <= cost(q)
  }

  lemma {:induction false} StepDownMeans(start: int, cost: int -> int, spendable: int)
    ensures var q := StepDown(start, cost, spendable);
      && (0 < start ==> 0 <= q <= start)
      && (start <= 0 ==> q == start)
      && (0 < q ==> cost(q) <= spendable)
      && (forall r | 0 < r <= start && q < r :: spendable < cost(r))
  {
    if 0 < start && spendable < cost(start) {
      StepDownMeans(start - 1, cost, spendable);
    }
  }

  /** Starting at what the price alone allows loses nothing: the result is the largest quantity, not above
      the wanted one, whose cost fits. */
  lemma StepDownIsLargest(wanted: int, price: int, cost: int -> int, spendable: int)
    requires 0 <= wanted && 0 < price && 0 <= spendable && ChargesNotional(cost, price)
    ensures var q := StepDown(Min(wanted, spendable / price), cost, spendable);
      && 0 <= q <= wanted && cost(q) <= spendable
      && (forall r | q < r <= wanted :: spendable < cost(r))
  {
    var bound := spendable / price;
    QuotientNonNegative(spendable, price);
    StepDownMeans(Min(wanted, bound), cost, spendable);
    forall r | bound < r ensures spendable < cost(r) {
      AboveQuotient(r, price, spendable);
    }
  }

  lemma AboveQuotient(r: int, price: int, spendable: int)
    requires 0 < price && spendable / price < r
    ensures spendable < r * price
  {
    var bound := spendable / price;
    assert spendable < bound * price + price;
    IntMulMonotone(bound + 1, r, price);
  }

  /** Notional plus truncated commission. */
  function BuyCost(price: int, rate: real): int -> int {
    q => q * price + Truncated(q * price, rate)
  }

  lemma BuyCostCharges(price: int, rate: real)
    requires 0 < price && 0.0 <= rate
    ensures ChargesNotional(BuyCost(price, rate), price)
  {
    forall q: int | 0 <= q ensures q * price <= BuyCost(price, rate)(q) {
      IntMulMonotone(0, q, price);
      TruncatedBounds(q * price, rate);
    }
    assert BuyCost(price, rate)(0) == 0 + Truncated(0, rate);
  }

  /** The quantity a buy fill applies. */
  function BuyQuantity(quantity: int, price: int, rate: real, spendable: int): int {
    if price <= 0 then 0 else StepDown(Min(quantity, spendable / price), BuyCost(price, rate), spendable)
  }

  /** The applied quantity is the largest that is not above the fill and whose cost with its truncated
      commission fits. */
  lemma BuyQuantityIsLargest(quantity: int, price: int, rate: real, spendable: int)
    requires 0 <= quantity && 0 < price && 0.0 <= rate && 0 <= spendable
    ensures var q := BuyQuantity(quantity, price, rate, spendable);
      && 0 <= q <= quantity && BuyCost(price, rate)(q) <= spendable
      && (forall r | q < r <= quantity :: spendable < BuyCost(price, rate)(r))
  {
    BuyCostCharges(price, rate);
    StepDownIsLargest(quantity, price, BuyCost(price, rate), spendable);
  }

  method StepDownQuantity(quantity: int, price: int, rate: real, spendable: int) returns (q: int, commission: int)
    ensures q == BuyQuantity(quantity, price, rate, spendable)
    ensures 0 < q ==> commission == Truncated(q * price, rate)
  {
    q := if price > 0 then Min(quantity, spendable / price) else 0;
    commission := 0;
    while q > 0
      invariant price > 0 ==>
        StepDown(q, BuyCost(price, rate), spendable) == BuyQuantity(quantity, price, rate, spendable)
      invariant price <= 0 ==> q == 0
    {
      commission := Truncated(q * price, rate);
      if q * price + commission <= spendable {
        break;
      }
      q := q - 1;
    }
  }

  // ----- one buy -----

  function BuyApplied(a: Account, f: Fill, rate: real): int {
    BuyQuantity(f.quantity, f.price, rate, SpendableCash(a))
  }

  function AfterBuy(a: Account, s: int, f: Fill, rate: real): Account {
    var q := BuyApplied(a, f, rate);
    if q <= 0 then a else Bought(a, s, f.order.instrument, q, f.price, Truncated(q * f.price, rate))
  }

  /** A fill the pricing step may hand over. */
  predicate Sane(f: Fill) {
    0 <= f.order.instrument && 0 <= f.quantity
  }

  /** One buy is never refused and never touches cash owed as tax. */
  lemma AfterBuyIsSafe(a: Account, s: int, f: Fill, rate: real)
    requires Sane(f) && 0.0 <= rate && 0 <= a.cash && 0 <= a.taxPayable
    ensures var q := BuyApplied(a, f, rate);
      q > 0 ==> Accepts(a, Buy(s, f.order.instrument, q, f.price, Truncated(q * f.price, rate)))
    ensures var b := AfterBuy(a, s, f, rate);
      Min(a.cash, a.taxPayable) <= b.cash <= a.cash && b.taxPayable == a.taxPayable
  {
    if 0 < f.price {
      var q := BuyApplied(a, f, rate);
      BuyQuantityIsLargest(f.quantity, f.price, rate, SpendableCash(a));
      IntMulMonotone(0, q, f.price);
      TruncatedBounds(q * f.price, rate);
    }
  }

  // ----- a whole batch of buys -----

  predicate LargerFirst(f: Fill, g: Fill) {
    f.quantity * f.price >= g.quantity * g.price
  }

  function AfterBuys(a: Account, s: int, fills: seq<Fill>, rate: real): Account {
    if fills == [] then a
    else AfterBuy(AfterBuys(a, s, fills[..|fills| - 1], rate), s, fills[|fills| - 1], rate)
  }

  /** What each fill of the batch applied, in processing order. */
  function BuysApplied(a: Account, s: int, fills: seq<Fill>, rate: real): (qs: seq<int>)
    ensures |qs| == |fills|
  {
    if fills == [] then []
    else
      BuysApplied(a, s, fills[..|fills| - 1], rate) +
      [BuyApplied(AfterBuys(a, s, fills[..|fills| - 1], rate), fills[|fills| - 1], rate)]
  }

  /** Over the whole batch cash never drops below the smaller of the starting cash and the owed tax. */
  lemma {:induction false} BuysAreSafe(a: Account, s: int, fills: seq<Fill>, rate: real)
    requires (forall f | f in fills :: Sane(f)) && 0.0 <= rate && 0 <= a.cash && 0 <= a.taxPayable
    ensures var b := AfterBuys(a, s, fills, rate);
      Min(a.cash, a.taxPayable) <= b.cash <= a.cash && b.taxPayable == a.taxPayable
  {
    if fills != [] {
      BuysAreSafe(a, s, fills[..|fills| - 1], rate);
      AfterBuyIsSafe(AfterBuys(a, s, fills[..|fills| - 1], rate), s, fills[|fills| - 1], rate);
    }
  }

  // ----- what a batch reports -----

  /** Fills that moved something, orders left short, and the remainders carried to the next session. */
  datatype Tally = Tally(applied: seq<Fill>, rejects: seq<Order>, carried: seq<Order>)

  function Count(t: Tally, f: Fill, q: int, s: int, carryUnfilled: bool): Tally {
    var shortfall := f.quantity - q;
    Tally(
      if q > 0 then t.applied + [Fill(f.order, q, f.price)] else t.applied,
      if shortfall != 0 then t.rejects + [f.order] else t.rejects,
      if shortfall != 0 && carryUnfilled then t.carried + [Order(f.order.instrument, f.order.side, shortfall, s)]
      else t.carried)
  }

  function TallyOf(fills: seq<Fill>, qs: seq<int>, s: int, carryUnfilled: bool): Tally
    requires |fills| == |qs|
  {
    if fills == [] then Tally([], [], [])
    else
      var n := |fills| - 1;
      Count(TallyOf(fills[..n], qs[..n], s, carryUnfilled), fills[n], qs[n], s, carryUnfilled)
  }

  function Filled(fills: seq<Fill>): int {
    if fills == [] then 0 else Filled(fills[..|fills| - 1]) + fills[|fills| - 1].quantity
  }

  function Ordered(orders: seq<Order>): int {
    if orders == [] then 0 else Ordered(orders[..|orders| - 1]) + orders[|orders| - 1].quantity
  }

  /** Nothing is lost: what was applied and what is carried add up to the batch. */
  lemma {:induction false} AppliedPlusCarried(fills: seq<Fill>, qs: seq<int>, s: int)
    requires |fills| == |qs| && forall n | 0 <= n < |qs| :: 0 <= qs[n]
    ensures var t := TallyOf(fills, qs, s, true);
      Filled(t.applied) + Ordered(t.carried) == Filled(fills)
  {
    if fills != [] {
      var n := |fills| - 1;
      AppliedPlusCarried(fills[..n], qs[..n], s);
      var t, t' := TallyOf(fills[..n], qs[..n], s, true), TallyOf(fills, qs, s, true);
      assert t'.applied == t.applied || t'.applied[..|t'.applied| - 1] == t.applied;
      assert t'.carried == t.carried || t'.carried[..|t'.carried| - 1] == t.carried;
    }
  }

  lemma PrefixSteps<T>(xs: seq<T>, n: nat)
    requires n < |xs|
    ensures xs[..n + 1][..n] == xs[..n] && xs[..n + 1][n] == xs[n]
  {
  }

  // ----- buys -----

  method ApplyBuyFill(ledger: Ledger, session: int, fill: Fill, config: CostConfig) returns (quantity: int)
    requires Sane(fill) && 0.0 <= config.commissionRate
    requires 0 <= ledger.cash && 0 <= ledger.taxPayable
    modifies ledger
    ensures quantity == BuyApplied(old(ledger.View()), fill, config.commissionRate)
    ensures ledger.View() == AfterBuy(old(ledger.View()), session, fill, config.commissionRate)
  {
    AfterBuyIsSafe(ledger.View(), session, fill, config.commissionRate);
    var commission;
    quantity, commission := StepDownQuantity(fill.quantity, fill.price, config.commissionRate,
      SpendableCash(ledger.View()));
    if quantity > 0 {
      var ok := ledger.Buy(session, fill.order.instrument, quantity, fill.price, commission);
      assert ok;
    }
  }

  /** Apply a batch of buys, largest notional first. */
  method ApplyBuyFills(ledger: Ledger, session: int, fills: seq<Fill>, config: CostConfig, carryUnfilled: bool)
    returns (t: Tally)
    requires (forall f | f in fills :: Sane(f)) && 0.0 <= config.commissionRate
    requires 0 <= ledger.cash && 0 <= ledger.taxPayable
    modifies ledger
    ensures var ordered := SortBy(fills, LargerFirst);
      && ledger.View() == AfterBuys(old(ledger.View()), session, ordered, config.commissionRate)
      && t == TallyOf(ordered, BuysApplied(old(ledger.View()), session, ordered, config.commissionRate), session, carryUnfilled)
  {
    var ordered := SortBy(fills, LargerFirst);
    SortByElements(fills, LargerFirst);
    ghost var a, rate := ledger.View(), config.commissionRate;
    ghost var qs: seq<int> := [];
    t := Tally([], [], []);
    for n := 0 to |ordered|
      invariant ledger.View() == AfterBuys(a, session, ordered[..n], rate)
      invariant |qs| == n && qs == BuysApplied(a, session, ordered[..n], rate)
      invariant t == TallyOf(ordered[..n], qs, session, carryUnfilled)
    {
      assert ordered[n] in ordered;
      PrefixSteps(ordered, n);
      BuysAreSafe(a, session, ordered[..n], rate);
      var quantity := ApplyBuyFill(ledger, session, ordered[n], config);
      t := Count(t, ordered[n], quantity, session, carryUnfilled);
      assert (qs + [quantity])[..n] == qs;
      qs := qs + [quantity];
    }
    assert ordered[..|ordered|] == ordered;
  }

  // ----- sells -----

  function SellApplied(a: Account, f: Fill): int {
    Min(f.quantity, Get(a.positions, f.order.instrument))
  }

  function AfterSell(a: Account, s: int, f: Fill, taxRates: map<int, real>, config: CostConfig): Account {
    var q, i := SellApplied(a, f), f.order.instrument;
    if q <= 0 then a
    else
      var c := FillCost(SELL, q, f.price, TaxRate(taxRates, i), config);
      Sold(a, s, i, q, f.price, c.commission, c.sellTax)
  }

  function TaxRate(taxRates: map<int, real>, instrument: int): real {
    if instrument in taxRates then taxRates[instrument] else 0.0
  }

  /** The session's statutory rates together with the commission never exceed a sale's proceeds. */
  ghost predicate SellRatesOk(taxRates: map<int, real>, config: CostConfig) {
    && 0.0 <= config.commissionRate <= 1.0
    && forall i | i in taxRates :: 0.0 <= taxRates[i] && config.commissionRate + taxRates[i] <= 1.0
  }

  predicate SaneSell(f: Fill) {
    0 <= f.order.instrument && 1 <= f.price
  }

  /** One sell is never refused and never costs more than it brings in. */
  lemma AfterSellIsSafe(a: Account, s: int, f: Fill, taxRates: map<int, real>, config: CostConfig)
    requires SaneSell(f) && SellRatesOk(taxRates, config)
    ensures var q, i := SellApplied(a, f), f.order.instrument;
      var c := FillCost(SELL, q, f.price, TaxRate(taxRates, i), config);
      var op := Sell(s, i, q, f.price, c.commission, c.sellTax);
      0 < q ==> Accepts(a, op) && Priced(op)
  {
    var q := SellApplied(a, f);
    if 0 < q {
      SaleCoversItsCosts(q, f.price, TaxRate(taxRates, f.order.instrument), config);
    }
  }

  function AfterSells(a: Account, s: int, fills: seq<Fill>, taxRates: map<int, real>, config: CostConfig): Account {
    if fills == [] then a
    else AfterSell(AfterSells(a, s, fills[..|fills| - 1], taxRates, config), s, fills[|fills| - 1], taxRates, config)
  }

  function SellsApplied(a: Account, s: int, fills: seq<Fill>, taxRates: map<int, real>,
      config: CostConfig): (qs: seq<int>)
    ensures |qs| == |fills|
  {
    if fills == [] then []
    else
      SellsApplied(a, s, fills[..|fills| - 1], taxRates, config) +
      [SellApplied(AfterSells(a, s, fills[..|fills| - 1], taxRates, config), fills[|fills| - 1])]
  }

  method ApplySellFill(ledger: Ledger, session: int, fill: Fill, taxRates: map<int, real>, config: CostConfig)
    returns (quantity: int)
    requires SaneSell(fill) && SellRatesOk(taxRates, config)
    modifies ledger
    ensures quantity == SellApplied(old(ledger.View()), fill)
    ensures ledger.View() == AfterSell(old(ledger.View()), session, fill, taxRates, config)
  {
    AfterSellIsSafe(ledger.View(), session, fill, taxRates, config);
    var n := fill.order.instrument;
    quantity := Min(fill.quantity, Get(ledger.positions, n));
    if quantity > 0 {
      var cost := FillCost(SELL, quantity, fill.price, TaxRate(taxRates, n), config);
      var ok := ledger.Sell(session, n, quantity, fill.price, cost.commission, cost.sellTax);
      assert ok;
    }
  }

  method ApplySellFills(ledger: Ledger, session: int, fills: seq<Fill>, taxRates: map<int, real>, config: CostConfig,
      carryUnfilled: bool)
    returns (t: Tally)
    requires (forall f | f in fills :: SaneSell(f)) && SellRatesOk(taxRates, config)
    modifies ledger
    ensures ledger.View() == AfterSells(old(ledger.View()), session, fills, taxRates, config)
    ensures t == TallyOf(fills, SellsApplied(old(ledger.View()), session, fills, taxRates, config), session,
      carryUnfilled)
  {
    ghost var a := ledger.View();
    ghost var qs: seq<int> := [];
    t := Tally([], [], []);
    for n := 0 to |fills|
      invariant ledger.View() == AfterSells(a, session, fills[..n], taxRates, config)
      invariant |qs| == n && qs == SellsApplied(a, session, fills[..n], taxRates, config)
      invariant t == TallyOf(fills[..n], qs, session, carryUnfilled)
    {
      assert fills[n] in fills;
      PrefixSteps(fills, n);
      var quantity := ApplySellFill(ledger, session, fills[n], taxRates, config);
      t := Count(t, fills[n], quantity, session, carryUnfilled);
      assert (qs + [quantity])[..n] == qs;
      qs := qs + [quantity];
    }
    assert fills[..|fills|] == fills;
  }

  // ----- the inverse ETF -----

  /** Notional plus rounded-up commission. */
  function InverseCost(price: int, rate: real): int -> int {
    q => q * price + InverseCommission(rate, q * price)
  }

  lemma InverseCostCharges(price: int, rate: real)
    requires 0 < price && 0.0 <= rate
    ensures ChargesNotional(InverseCost(price, rate), price)
  {
    forall q: int | 0 <= q ensures q * price <= InverseCost(price, rate)(q) {
      IntMulMonotone(0, q, price);
      MulNonNegative(rate, (q * price) as real);
    }
    assert InverseCost(price, rate)(0) == 0 + InverseCommission(rate, 0);
  }

  function DesiredUnits(target: int, price: int): int
    requires price != 0
  {
    Max(target / price, 0)
  }

  /** Units bought toward the target within spendable cash. */
  function InverseUnitsBought(a: Account, target: int, price: int, rate: real): int
    requires price != 0
  {
    StepDown(Min(DesiredUnits(target, price) - a.inverseUnits, SpendableCash(a) / price), InverseCost(price, rate),
      SpendableCash(a))
  }

  function AfterInverse(a: Account, s: int, target: int, price: int, rate: real, taxRate: real): Account
    requires price != 0
  {
    var desired := DesiredUnits(target, price);
    if desired < a.inverseUnits then InverseSold(a, s, a.inverseUnits - desired, price, rate, taxRate)
    else
      var units := InverseUnitsBought(a, target, price, rate);
      if units <= 0 then a else InverseBought(a, s, units, price, rate)
  }

  /** A purchase toward the target buys the most that fits, is never refused and leaves owed tax alone. */
  lemma InversePurchaseIsSafe(a: Account, s: int, target: int, price: int, rate: real)
    requires 0 < price && CostRateOk(rate) && 0 <= a.cash && 0 <= a.taxPayable
    requires a.inverseUnits <= DesiredUnits(target, price)
    ensures var units := InverseUnitsBought(a, target, price, rate);
      && 0 <= units <= DesiredUnits(target, price) - a.inverseUnits
      && (0 < units ==> Accepts(a, BuyInverse(s, units, price, rate)))
      && (forall r | units < r <= DesiredUnits(target, price) - a.inverseUnits :: SpendableCash(a) < InverseCost(price, rate)(r))
    ensures var b := AfterInverse(a, s, target, price, rate, 0.0);
      Min(a.cash, a.taxPayable) <= b.cash && b.taxPayable == a.taxPayable
  {
    InverseCostCharges(price, rate);
    StepDownIsLargest(DesiredUnits(target, price) - a.inverseUnits, price, InverseCost(price, rate), SpendableCash(a));
  }

  method SyncInverse(ledger: Ledger, session: int, target: int, price: int, config: DerivativeConfig)
    requires config.Valid() && 1 <= price
    requires 0 <= ledger.cash && 0 <= ledger.taxPayable && 0 <= ledger.inverseUnits
    modifies ledger
    ensures ledger.View() ==
      AfterInverse(old(ledger.View()), session, target, price, config.inverseCostRate, config.inverseTaxRate)
  {
    var rate := config.inverseCostRate;
    var desired := Max(target / price, 0);
    var held := ledger.inverseUnits;
    if desired < held {
      var ok := ledger.SellInverse(session, held - desired, price, rate, config.inverseTaxRate);
      assert ok;
      return;
    }
    var spendable := SpendableCash(ledger.View());
    InversePurchaseIsSafe(ledger.View(), session, target, price, rate);
    var affordable := Min(desired - held, spendable / price);
    while affordable > 0 && affordable * price + InverseCommission(rate, affordable * price) > spendable
      invariant StepDown(affordable, InverseCost(price, rate), spendable)
             == InverseUnitsBought(ledger.View(), target, price, rate)
      invariant ledger.View() == old(ledger.View())
    {
      affordable := affordable - 1;
    }
    if affordable > 0 {
      var ok := ledger.BuyInverse(session, affordable, price, rate);
      assert ok;
    }
  }
}
