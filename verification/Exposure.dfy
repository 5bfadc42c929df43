/** Margin, maintenance floor and commission as shares of the exposure that variation margin marks. */
module Exposure {
  import opened Rounding
  import opened Overlay
  import opened Variation

  /** The size of the mark of `k` contracts, whatever their sign. */
  function ExposureOf(cfg: DerivativeConfig, level: real, k: int): real {
    var mark := ExactMark(k, cfg.multiplier, level);
    if mark < 0.0 then -mark else mark
  }

  function ReserveKrw(cfg: DerivativeConfig, level: real, k: int): int {
    Ceil((cfg.initialMarginRate + cfg.marginBufferRate) * ExposureOf(cfg, level, k))
  }

  function FloorKrw(cfg: DerivativeConfig, level: real, k: int): int {
    Ceil(cfg.topupTrigger * cfg.initialMarginRate * ExposureOf(cfg, level, k))
  }

  function CostKrw(cfg: DerivativeConfig, level: real, k: int): int {
    Ceil(cfg.futuresCostRate * ExposureOf(cfg, level, k))
  }

  lemma ExposureIsProduct(cfg: DerivativeConfig, level: real, k: int)
    requires cfg.Valid() && 0.0 < level
    ensures ExposureOf(cfg, level, k) == Abs(k) as real * cfg.multiplier as real * level
  {
    var m := cfg.multiplier as real;
    MulNonNegative(Abs(k) as real, m);
    MulNonNegative(Abs(k) as real * m, level);
    IntProduct(k, cfg.multiplier);
    if k < 0 {
      NegativeProduct(k as real, m, level);
    }
  }

  lemma IntProduct(k: int, m: int)
    ensures (k * m) as real == k as real * m as real
  {
  }

  lemma NegativeProduct(k: real, m: real, level: real)
    ensures (-k) * m * level == -(k * m * level)
  {
    assert (-k) * m == -(k * m);
    assert (-(k * m)) * level == -(k * m * level);
  }

  lemma RateOfExposure(rate: real, n: real, m: real, level: real)
    ensures rate * m * level * n == rate * (n * m * level)
  {
    assert rate * m * level * n == rate * m * (level * n);
    assert rate * m * (level * n) == rate * (m * (level * n));
    assert m * (level * n) == n * m * level;
  }

  /** Every amount of a count is the ceiling of its rate times the exposure of that count. */
  lemma AmountsOfExposure(cfg: DerivativeConfig, level: real, k: int)
    requires cfg.Valid() && 0.0 < level
    ensures var u := UnitsOf(cfg, level, cfg.multiplier);
      && Reserve(u, k) == ReserveKrw(cfg, level, k)
      && MaintenanceFloor(u, k) == FloorKrw(cfg, level, k)
      && Commission(u.cost, k) == CostKrw(cfg, level, k)
  {
    var n, m := Abs(k) as real, cfg.multiplier as real;
    ExposureIsProduct(cfg, level, k);
    RateOfExposure(cfg.initialMarginRate + cfg.marginBufferRate, n, m, level);
    RateOfExposure(cfg.topupTrigger * cfg.initialMarginRate, n, m, level);
    RateOfExposure(cfg.futuresCostRate, n, m, level);
  }
}
