/** Terms of the index-futures overlay: reserve, maintenance floor and commission of a signed
    contract count, each the ceiling of an exact product. */
module Overlay {
  import opened Rounding

  const PRIMARY_LEG := "primary"

  /** Contract, margin, cost and tax terms; `Valid` is what construction of the terms accepts. */
  datatype DerivativeConfig = DerivativeConfig(
    multiplier: int,
    initialMarginRate: real,
    marginBufferRate: real,
    topupTrigger: real,
    futuresCostRate: real,
    inverseCostRate: real,
    futuresTaxRate: real,
    annualDeduction: int,
    inverseTaxRate: real)
  {
    ghost predicate Valid() {
      && 0 < multiplier
      && 0.0 < initialMarginRate < 1.0
      && 0.0 < marginBufferRate < 1.0
      && 0.0 < topupTrigger <= 1.0
      && 0.0 <= futuresCostRate < 1.0
      && 0.0 <= inverseCostRate < 1.0
      && 0.0 <= futuresTaxRate < 1.0
      && 0 <= annualDeduction
      && 0.0 <= inverseTaxRate < 1.0
    }
  }

  datatype Checked<T> = Ok(value: T) | PITDataError

  /** KRW per contract at one level: reserve, maintenance floor, commission, and the capacity the
      funding search divides by.  The reserve uses the multiplier of the terms; the other three use
      the multiplier handed to the engine. */
  datatype Units = Units(reserve: real, floor: real, cost: real, capacity: real)
  {
    ghost predicate Valid() {
      0.0 < reserve && 0.0 < floor && 0.0 <= cost && 0.0 < capacity
    }

    /** Both multipliers agree, as at every call of the engine. */
    ghost predicate Consistent() {
      Valid() && capacity == reserve && floor <= reserve
    }
  }

  function UnitsOf(cfg: DerivativeConfig, level: real, multiplier: int): Units {
    var rate := cfg.initialMarginRate + cfg.marginBufferRate;
    Units(
      rate * cfg.multiplier as real * level,
      cfg.topupTrigger * cfg.initialMarginRate * multiplier as real * level,
      cfg.futuresCostRate * multiplier as real * level,
      rate * multiplier as real * level)
  }

  /** Whole KRW charged for `n` contracts at `unit` KRW each. */
  function CeilTimes(unit: real, n: nat): int {
    Ceil(unit * n as real)
  }

  /** KRW held against `k` contracts, long or short alike. */
  function Reserve(u: Units, k: int): int {
    if k == 0 then 0 else CeilTimes(u.reserve, Abs(k))
  }

  /** Margin below which `k` held contracts must be topped up. */
  function MaintenanceFloor(u: Units, k: int): int {
    if k == 0 then 0 else CeilTimes(u.floor, Abs(k))
  }

  /** Cost of moving a leg by `delta` contracts at `unit` KRW per contract. */
  function Commission(unit: real, delta: int): int {
    CeilTimes(unit, Abs(delta))
  }

  // ----- exact products -----

  function Product(rate: real, factors: seq<real>): real {
    if factors == [] then rate else Product(rate, factors[..|factors| - 1]) * factors[|factors| - 1]
  }

  method CeilAmountKrw(rate: real, factors: seq<real>) returns (krw: int)
    ensures krw == Ceil(Product(rate, factors))
  {
    var product := rate;
    for i := 0 to |factors|
      invariant product == Product(rate, factors[..i])
    {
      assert factors[..i + 1][..i] == factors[..i];
      product := product * factors[i];
    }
    assert factors[..|factors|] == factors;
    krw := Ceil(product);
  }

  lemma ProductOfThree(rate: real, a: real, b: real, c: real)
    ensures Product(rate, [a, b, c]) == rate * b * c * a
  {
    assert [a, b, c][..2] == [a, b] && [a, b][..1] == [a] && [a][..0] == [];
    assert Product(rate, [a]) == rate * a;
    assert Product(rate, [a, b]) == rate * a * b;
    assert rate * a * b * c == rate * b * c * a;
  }

  /** A flat leg needs no level; any other leg needs a positive one. */
  method RequiredReserve(cfg: DerivativeConfig, level: real, multiplier: int, k: int) returns (r: Checked<int>)
    ensures r == if k != 0 && level <= 0.0 then PITDataError
                 else Ok(Reserve(UnitsOf(cfg, level, multiplier), k))
  {
    if k == 0 {
      return Ok(0);
    }
    if level <= 0.0 {
      return PITDataError;
    }
    var rate := cfg.initialMarginRate + cfg.marginBufferRate;
    var krw := CeilAmountKrw(rate, [Abs(k) as real, cfg.multiplier as real, level]);
    ProductOfThree(rate, Abs(k) as real, cfg.multiplier as real, level);
    assert krw == CeilTimes(UnitsOf(cfg, level, multiplier).reserve, Abs(k));
    return Ok(krw);
  }

  // ----- laws of the amounts -----

  lemma UnitsValid(cfg: DerivativeConfig, level: real, multiplier: int)
    requires cfg.Valid() && 0.0 < level && 0 < multiplier
    ensures UnitsOf(cfg, level, multiplier).Valid()
  {
    var r := cfg.initialMarginRate + cfg.marginBufferRate;
    var t := cfg.topupTrigger * cfg.initialMarginRate;
    var m, n := cfg.multiplier as real, multiplier as real;
    assert 0.0 < t;
    assert 0.0 < r * m && 0.0 < r * n && 0.0 < t * n && 0.0 <= cfg.futuresCostRate * n;
  }

  /** The search capacity exceeds the true unit reserve exactly when the multiplier passed to the
      search exceeds the one in the terms. */
  lemma CapacityOrder(cfg: DerivativeConfig, level: real, multiplier: int)
    requires cfg.Valid() && 0.0 < level
    ensures UnitsOf(cfg, level, multiplier).capacity <= UnitsOf(cfg, level, multiplier).reserve
       <==> multiplier <= cfg.multiplier
  {
    var r := cfg.initialMarginRate + cfg.marginBufferRate;
    var m, n := cfg.multiplier as real, multiplier as real;
    if multiplier <= cfg.multiplier {
      MulMonotone(r, n, m);
      MulMonotone(level, r * n, r * m);
    } else {
      assert 0.0 < r * (n - m);
      assert 0.0 < r * (n - m) * level;
      assert r * n * level == r * m * level + r * (n - m) * level;
    }
  }

  /** At the multiplier of the terms the hold band [floor, reserve] is never empty. */
  lemma UnitsConsistent(cfg: DerivativeConfig, level: real)
    requires cfg.Valid() && 0.0 < level
    ensures UnitsOf(cfg, level, cfg.multiplier).Consistent()
  {
    UnitsValid(cfg, level, cfg.multiplier);
    var t := cfg.topupTrigger * cfg.initialMarginRate;
    var r := cfg.initialMarginRate + cfg.marginBufferRate;
    var m := cfg.multiplier as real;
    MulMonotone(cfg.initialMarginRate, cfg.topupTrigger, 1.0);
    MulMonotone(m, t, r);
    MulMonotone(level, t * m, r * m);
  }

  lemma ReserveGrows(u: Units, j: int, k: int)
    requires u.Valid() && Abs(j) <= Abs(k)
    ensures 0 <= Reserve(u, j) <= Reserve(u, k)
  {
    CeilTimesGrows(u.reserve, Abs(j), Abs(k));
  }

  lemma CeilTimesGrows(unit: real, j: nat, k: nat)
    requires 0.0 <= unit && j <= k
    ensures 0 <= CeilTimes(unit, j) <= CeilTimes(unit, k)
  {
    MulNonNegative(unit, j as real);
    MulMonotone(unit, j as real, k as real);
    CeilMonotone(unit * j as real, unit * k as real);
  }

  lemma CommissionNonNegative(unit: real, delta: int)
    requires 0.0 <= unit
    ensures 0 <= Commission(unit, delta)
    ensures Commission(unit, 0) == 0
  {
    CeilTimesGrows(unit, 0, Abs(delta));
  }

  /** Going from `h` to `k` directly never costs more than stopping at `j` on the way. */
  lemma CommissionTriangle(unit: real, h: int, j: int, k: int)
    requires 0.0 <= unit
    ensures Commission(unit, k - h) <= Commission(unit, j - h) + Commission(unit, k - j)
  {
    var y, z := Abs(j - h) as real, Abs(k - j) as real;
    CeilTimesGrows(unit, Abs(k - h), Abs(j - h) + Abs(k - j));
    assert unit * (y + z) == unit * y + unit * z;
    CeilSubadditive(unit * y, unit * z);
  }

  lemma FloorBelowReserve(u: Units, k: int)
    requires u.Consistent()
    ensures 0 <= MaintenanceFloor(u, k) <= Reserve(u, k)
  {
    var n := Abs(k) as real;
    MulMonotone(n, u.floor, u.reserve);
    MulNonNegative(u.floor, n);
    CeilMonotone(u.floor * n, u.reserve * n);
  }
}
