/** What fills do to an account, in prices, quantities and cash that no tax claims. */
module FillMeaning {
  import opened Rounding
  import opened Costs
  import opened Sums
  import opened Sorting
  import opened Accounts
  import opened Fills

  /** Price times quantity and the commission on it, rounded down. */
  function CostOfBuying(q: int, price: int, rate: real): int {
    q * price + ((q * price) as real * rate).Floor
  }

  /** Price times quantity and the commission on it, rounded up. */
  function CostOfInverse(q: int, price: int, rate: real): int {
    q * price + Ceil(rate * (q * price) as real)
  }

  /** From `a` to `b` the holding of one instrument rose by `q`, and cash by `money`; no other holding moved. */
  ghost predicate Moves(a: Account, b: Account, i: int, q: int, money: int) {
    && b.cash == a.cash + money && b.taxPayable == a.taxPayable && b.margin == a.margin
    && forall j :: Get(b.positions, j) == Get(a.positions, j) + (if j == i then q else 0)
  }

  lemma BoughtMoves(a: Account, s: int, i: int, q: int, price: int, rate: real)
    ensures Moves(a, Bought(a, s, i, q, price, Truncated(q * price, rate)), i, q, -CostOfBuying(q, price, rate))
  {
  }

  lemma NothingMoves(a: Account, i: int)
    ensures Moves(a, a, i, 0, 0)
  {
  }

  lemma NoBuyNoCost(price: int, rate: real)
    ensures CostOfBuying(0, price, rate) == 0
  {
    assert 0 * price == 0;
    assert (0 as real * rate).Floor == 0;
  }

  /** A buy takes the largest quantity, not above the fill, whose cost fits the cash that no owed tax claims. */
  lemma BuyMeans(a: Account, s: int, f: Fill, rate: real) returns (q: int)
    requires Sane(f) && 0.0 <= rate && 0 <= a.cash && 0 <= a.taxPayable
    ensures 0 <= q <= f.quantity && (f.price <= 0 ==> q == 0)
    ensures Moves(a, AfterBuy(a, s, f, rate), f.order.instrument, q, -CostOfBuying(q, f.price, rate))
    ensures 0 < q ==> CostOfBuying(q, f.price, rate) <= a.cash - a.taxPayable
    ensures 0 < f.price ==> forall r | q < r <= f.quantity :: a.cash - a.taxPayable < CostOfBuying(r, f.price, rate)
  {
    q := BuyApplied(a, f, rate);
    if 0 < f.price {
      LargestBuy(a, f, rate);
    }
    if q == 0 {
      NoBuyNoCost(f.price, rate);
      NothingMoves(a, f.order.instrument);
    } else {
      BoughtMoves(a, s, f.order.instrument, q, f.price, rate);
    }
  }

  lemma LargestBuy(a: Account, f: Fill, rate: real)
    requires Sane(f) && 0.0 <= rate && 0 < f.price
    ensures var q := BuyApplied(a, f, rate);
      && 0 <= q <= f.quantity && (0 < q ==> CostOfBuying(q, f.price, rate) <= a.cash - a.taxPayable)
      && forall r | q < r <= f.quantity :: a.cash - a.taxPayable < CostOfBuying(r, f.price, rate)
  {
    BuyQuantityIsLargest(f.quantity, f.price, rate, SpendableCash(a));
    BuyFitsFree(f.quantity, BuyApplied(a, f, rate), f.price, rate, a.cash - a.taxPayable);
  }

  lemma BuyFitsFree(wanted: int, q: int, price: int, rate: real, free: int)
    requires 0 < price && 0.0 <= rate && 0 <= q <= wanted && BuyCost(price, rate)(q) <= Max(free, 0)
    requires forall r | q < r <= wanted :: Max(free, 0) < BuyCost(price, rate)(r)
    ensures 0 < q ==> CostOfBuying(q, price, rate) <= free
    ensures forall r | q < r <= wanted :: free < CostOfBuying(r, price, rate)
  {
    assert BuyCost(price, rate)(q) == CostOfBuying(q, price, rate);
    if 0 < q {
      IntMulMonotone(1, q, price);
      TruncatedBounds(q * price, rate);
    }
    forall r | q < r <= wanted ensures free < CostOfBuying(r, price, rate) {
      assert Max(free, 0) < BuyCost(price, rate)(r);
    }
  }

  /** Proceeds less commission and tax, each rounded down. */
  function Net(proceeds: int, commissionRate: real, taxRate: real): int {
    proceeds - (proceeds as real * commissionRate).Floor - (proceeds as real * taxRate).Floor
  }

  lemma NoSaleNoProceeds(commissionRate: real, taxRate: real)
    ensures Net(0, commissionRate, taxRate) == 0
  {
  }

  lemma SoldMoves(a: Account, s: int, i: int, q: int, price: int, taxRate: real, config: CostConfig)
    ensures var c := FillCost(SELL, q, price, taxRate, config);
      Moves(a, Sold(a, s, i, q, price, c.commission, c.sellTax), i, -q, Net(q * price, config.commissionRate, taxRate))
  {
    var c := FillCost(SELL, q, price, taxRate, config);
    assert q * price - c.commission - c.sellTax == Net(q * price, config.commissionRate, taxRate);
    SaleMoves(a, s, i, q, price, c.commission, c.sellTax);
  }

  lemma SaleMoves(a: Account, s: int, i: int, q: int, price: int, commission: int, tax: int)
    ensures Moves(a, Sold(a, s, i, q, price, commission, tax), i, -q, q * price - commission - tax)
  {
  }

  /** A sell takes the fill or the whole holding, whichever is less, and pays commission and tax on the proceeds. */
  lemma SellMeans(a: Account, s: int, f: Fill, taxRates: map<int, real>, config: CostConfig) returns (q: int)
    requires 0 <= f.quantity && 0 <= Get(a.positions, f.order.instrument)
    ensures q == Min(f.quantity, Get(a.positions, f.order.instrument))
    ensures var i := f.order.instrument;
      var tax := if i in taxRates then taxRates[i] else 0.0;
      Moves(a, AfterSell(a, s, f, taxRates, config), i, -q, Net(q * f.price, config.commissionRate, tax))
  {
    q := SellApplied(a, f);
    var tax := TaxRate(taxRates, f.order.instrument);
    if q == 0 {
      NoSaleNoProceeds(config.commissionRate, tax);
      NothingMoves(a, f.order.instrument);
    } else {
      SoldMoves(a, s, f.order.instrument, q, f.price, tax, config);
    }
  }

  // ----- a batch of sells -----

  /** What the batch wants to sell of one instrument. */
  function Wanted(fills: seq<Fill>, i: int): int {
    if fills == [] then 0
    else
      var f := fills[|fills| - 1];
      Wanted(fills[..|fills| - 1], i) + (if f.order.instrument == i then f.quantity else 0)
  }

  lemma {:induction false} WantedNonNegative(fills: seq<Fill>, i: int)
    requires forall f | f in fills :: 0 <= f.quantity
    ensures 0 <= Wanted(fills, i)
  {
    if fills != [] {
      assert fills[|fills| - 1] in fills;
      WantedNonNegative(fills[..|fills| - 1], i);
    }
  }

  /** However the fills of an instrument are split and ordered, the batch sells what they want together, up to what is
      held. */
  lemma {:induction false} SellsMean(a: Account, s: int, fills: seq<Fill>, taxRates: map<int, real>, config: CostConfig,
      i: int)
    requires (forall f | f in fills :: 0 <= f.quantity) && forall j :: 0 <= Get(a.positions, j)
    ensures Get(AfterSells(a, s, fills, taxRates, config).positions, i) == Max(Get(a.positions, i) - Wanted(fills, i),
      0)
    ensures forall j :: 0 <= Get(AfterSells(a, s, fills, taxRates, config).positions, j)
    decreases |fills|
  {
    if fills != [] {
      var n := |fills| - 1;
      var before := AfterSells(a, s, fills[..n], taxRates, config);
      assert fills[n] in fills;
      SellsMean(a, s, fills[..n], taxRates, config, i);
      WantedNonNegative(fills[..n], i);
      var q := SellMeans(before, s, fills[n], taxRates, config);
    }
  }

  // ----- what a batch reports -----

  predicate Short(f: Fill, q: int) {
    q != f.quantity
  }

  function Remainder(f: Fill, q: int, s: int): Order {
    Order(f.order.instrument, f.order.side, f.quantity - q, s)
  }

  predicate Moved(f: Fill, q: int, x: Fill) {
    q > 0 && x == Fill(f.order, q, f.price)
  }

  ghost predicate AmongMoved(fills: seq<Fill>, qs: seq<int>, n: nat, x: Fill)
    requires n <= |fills| == |qs|
  {
    exists m | 0 <= m < n :: Moved(fills[m], qs[m], x)
  }

  ghost predicate AmongShort(fills: seq<Fill>, qs: seq<int>, n: nat, y: Order)
    requires n <= |fills| == |qs|
  {
    exists m | 0 <= m < n :: Short(fills[m], qs[m]) && fills[m].order == y
  }

  ghost predicate AmongRemainders(fills: seq<Fill>, qs: seq<int>, s: int, n: nat, y: Order)
    requires n <= |fills| == |qs|
  {
    exists m | 0 <= m < n :: Short(fills[m], qs[m]) && Remainder(fills[m], qs[m], s) == y
  }

  lemma AmongStep(fills: seq<Fill>, qs: seq<int>, s: int, n: nat, x: Fill, y: Order)
    requires n < |fills| == |qs|
    ensures AmongMoved(fills, qs, n + 1, x) <==> AmongMoved(fills, qs, n, x) || Moved(fills[n], qs[n], x)
    ensures AmongShort(fills, qs, n + 1, y) <==>
      AmongShort(fills, qs, n, y) || (Short(fills[n], qs[n]) && fills[n].order == y)
    ensures AmongRemainders(fills, qs, s, n + 1, y) <==>
      AmongRemainders(fills, qs, s, n, y) || (Short(fills[n], qs[n]) && Remainder(fills[n], qs[n], s) == y)
  {
  }

  lemma {:induction false} TallyUpTo(fills: seq<Fill>, qs: seq<int>, s: int, carryUnfilled: bool, n: nat, x: Fill,
      y: Order)
    requires n <= |fills| == |qs|
    ensures var t := TallyOf(fills[..n], qs[..n], s, carryUnfilled);
      && (x in t.applied <==> AmongMoved(fills, qs, n, x))
      && (y in t.rejects <==> AmongShort(fills, qs, n, y))
      && (y in t.carried <==> carryUnfilled && AmongRemainders(fills, qs, s, n, y))
  {
    if n != 0 {
      TallyUpTo(fills, qs, s, carryUnfilled, n - 1, x, y);
      AmongStep(fills, qs, s, n - 1, x, y);
      assert fills[..n][..n - 1] == fills[..n - 1] && qs[..n][..n - 1] == qs[..n - 1];
    }
  }

  /** A batch reports each quantity that moved at its fill's price, the order of each fill left short, and, when asked
      to, an order of this session for each remainder. */
  lemma TallyMeans(fills: seq<Fill>, qs: seq<int>, s: int, carryUnfilled: bool, x: Fill, y: Order)
    requires |fills| == |qs|
    ensures var t, n := TallyOf(fills, qs, s, carryUnfilled), |fills|;
      && (x in t.applied <==> AmongMoved(fills, qs, n, x))
      && (y in t.rejects <==> AmongShort(fills, qs, n, y))
      && (y in t.carried <==> carryUnfilled && AmongRemainders(fills, qs, s, n, y))
  {
    TallyUpTo(fills, qs, s, carryUnfilled, |fills|, x, y);
    assert fills[..|fills|] == fills && qs[..|qs|] == qs;
  }

  // ----- the order of buys -----

  function Notional(f: Fill): int {
    f.quantity * f.price
  }

  lemma LargerFirstOrders()
    ensures TotalPreorder(LargerFirst)
  {
  }

  /** Buys are taken in falling order of notional, each once, and in the order given where notionals are equal. */
  lemma BuysInOrder(fills: seq<Fill>, v: int)
    ensures var ordered := SortBy(fills, LargerFirst);
      && multiset(ordered) == multiset(fills)
      && (forall i, j | 0 <= i < j < |ordered| :: Notional(ordered[i]) >= Notional(ordered[j]))
      && Filter(ordered, f => Notional(f) == v) == Filter(fills, f => Notional(f) == v)
  {
    var same := (f: Fill) => Notional(f) == v;
    LargerFirstOrders();
    SortByPermutes(fills, LargerFirst);
    SortBySorts(fills, LargerFirst);
    FilterSort(fills, LargerFirst, same);
    FilterElements(fills, same);
    var kept := Filter(fills, same);
    forall i, j | 0 <= i < j < |kept| ensures LargerFirst(kept[i], kept[j]) {
      assert kept[i] in kept && kept[j] in kept;
    }
    SortedIsFixed(kept, LargerFirst);
  }

  // ----- the inverse ETF -----

  /** The most whole units the target value pays for at the price, and none for a negative value. */
  ghost predicate Affords(value: int, price: int, units: int) {
    0 <= units && (units * price <= value || units == 0) && value < (units + 1) * price
  }

  lemma DesiredAffords(value: int, price: int)
    requires 0 < price
    ensures Affords(value, price, DesiredUnits(value, price))
  {
    var q := value / price;
    assert q * price <= value < q * price + price;
    assert (q + 1) * price == q * price + price;
    if q < 0 {
      IntMulMonotone(q + 1, 0, price);
    }
  }

  /** The trade sells down to the units the target value pays for.  Below them it buys the most that is not above and
      whose cost fits the cash that no owed tax claims. */
  lemma InverseMeans(a: Account, s: int, value: int, price: int, rate: real, taxRate: real) returns (desired: int)
    requires 0 < price && CostRateOk(rate) && 0 <= a.cash && 0 <= a.taxPayable && 0 <= a.inverseUnits
    ensures Affords(value, price, desired)
    ensures var b := AfterInverse(a, s, value, price, rate, taxRate);
      var q := b.inverseUnits - a.inverseUnits;
      && (desired < a.inverseUnits ==> b.inverseUnits == desired)
      && (a.inverseUnits <= desired ==>
          && 0 <= q <= desired - a.inverseUnits
          && (0 < q ==> CostOfInverse(q, price, rate) <= a.cash - a.taxPayable)
          && (forall r | q < r <= desired - a.inverseUnits :: a.cash - a.taxPayable < CostOfInverse(r, price, rate)))
  {
    desired := DesiredUnits(value, price);
    DesiredAffords(value, price);
    if a.inverseUnits <= desired {
      LargestPurchase(a, s, value, price, rate);
    }
  }

  lemma LargestPurchase(a: Account, s: int, value: int, price: int, rate: real)
    requires 0 < price && CostRateOk(rate) && 0 <= a.cash && 0 <= a.taxPayable
    requires a.inverseUnits <= DesiredUnits(value, price)
    ensures var q, wanted := InverseUnitsBought(a, value, price, rate), DesiredUnits(value, price) - a.inverseUnits;
      && 0 <= q <= wanted && (0 < q ==> CostOfInverse(q, price, rate) <= a.cash - a.taxPayable)
      && (forall r | q < r <= wanted :: a.cash - a.taxPayable < CostOfInverse(r, price, rate))
  {
    LargestInverse(DesiredUnits(value, price) - a.inverseUnits, price, rate, a.cash - a.taxPayable);
  }

  lemma LargestInverse(wanted: int, price: int, rate: real, free: int)
    requires 0 <= wanted && 0 < price && 0.0 <= rate
    ensures var q := StepDown(Min(wanted, Max(free, 0) / price), InverseCost(price, rate), Max(free, 0));
      && 0 <= q <= wanted && (0 < q ==> CostOfInverse(q, price, rate) <= free)
      && (forall r | q < r <= wanted :: free < CostOfInverse(r, price, rate))
  {
    var cost, spendable := InverseCost(price, rate), Max(free, 0);
    InverseCostCharges(price, rate);
    StepDownIsLargest(wanted, price, cost, spendable);
    FitsFree(wanted, StepDown(Min(wanted, spendable / price), cost, spendable), price, rate, free);
  }

  /** What fits spendable cash costs something, so it fits the free cash. */
  lemma FitsFree(wanted: int, q: int, price: int, rate: real, free: int)
    requires 0 < price && ChargesNotional(InverseCost(price, rate), price)
    requires 0 <= q <= wanted && InverseCost(price, rate)(q) <= Max(free, 0)
    requires forall r | q < r <= wanted :: Max(free, 0) < InverseCost(price, rate)(r)
    ensures 0 < q ==> CostOfInverse(q, price, rate) <= free
    ensures forall r | q < r <= wanted :: free < CostOfInverse(r, price, rate)
  {
    var cost := InverseCost(price, rate);
    if 0 < q {
      IntMulMonotone(1, q, price);
      assert q * price <= cost(q);
    }
    forall r | q < r <= wanted ensures free < CostOfInverse(r, price, rate) {
      assert Max(free, 0) < cost(r);
    }
  }
}
