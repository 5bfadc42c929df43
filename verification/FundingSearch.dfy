/** The funded contract count of one leg: a search that starts at the reserve bound, proved to
    return what the plain magnitude-descending scan from the target returns. */
module FundingSearch {
  import opened Rounding
  import opened Overlay

  /** `k` contracts can be carried: reserve plus the commission of getting there fits. */
  predicate Fundable(u: Units, k: int, held: int, available: int) {
    Reserve(u, k) + Commission(u.cost, k - held) <= available
  }

  function Sign(target: int): int {
    if target > 0 then 1 else -1
  }

  /** The reference: try `magnitude`, `magnitude - 1`, ..., 0 on one side; 0 when nothing fits. */
  function Scan(u: Units, sign: int, magnitude: nat, held: int, available: int): int {
    if Fundable(u, sign * magnitude, held, available) || magnitude == 0 then sign * magnitude
    else Scan(u, sign, magnitude - 1, held, available)
  }

  function LargestFundable(u: Units, target: int, held: int, available: int): int {
    Scan(u, Sign(target), Abs(target), held, available)
  }

  /** `k` lies on the segment from 0 to `target`. */
  predicate Between(k: int, target: int) {
    if target >= 0 then 0 <= k <= target else target <= k <= 0
  }

  /** What the scan means: the answer lies between flat and the target, everything of larger
      magnitude is unaffordable, and the answer itself is affordable unless it is flat. */
  lemma {:induction false} ScanIsMaximal(u: Units, sign: int, magnitude: nat, held: int, available: int)
    requires sign == 1 || sign == -1
    ensures var k := Scan(u, sign, magnitude, held, available);
      && k == sign * Abs(k) && Abs(k) <= magnitude
      && (k == 0 || Fundable(u, k, held, available))
      && forall m: nat | Abs(k) < m <= magnitude :: !Fundable(u, sign * m, held, available)
  {
    if !Fundable(u, sign * magnitude, held, available) && magnitude != 0 {
      ScanIsMaximal(u, sign, magnitude - 1, held, available);
    }
  }

  lemma LargestFundableIsMaximal(u: Units, target: int, held: int, available: int)
    ensures var k := LargestFundable(u, target, held, available);
      && Between(k, target)
      && (k == 0 || Fundable(u, k, held, available))
      && forall j | Between(j, target) && Abs(k) < Abs(j) :: !Fundable(u, j, held, available)
  {
    ScanIsMaximal(u, Sign(target), Abs(target), held, available);
    var k := LargestFundable(u, target, held, available);
    forall j | Between(j, target) && Abs(k) < Abs(j) ensures !Fundable(u, j, held, available) {
      assert j == Sign(target) * Abs(j);
    }
  }

  /** Any count with those properties is the scan's answer. */
  lemma MaximalIsScan(u: Units, target: int, held: int, available: int, k: int)
    requires Between(k, target)
    requires k == 0 || Fundable(u, k, held, available)
    requires forall j | Between(j, target) && Abs(k) < Abs(j) :: !Fundable(u, j, held, available)
    ensures LargestFundable(u, target, held, available) == k
  {
    LargestFundableIsMaximal(u, target, held, available);
  }

  // ----- the search of the engine -----

  /** How many contracts the reserve alone allows. */
  function ReserveBound(u: Units, available: int): int
    requires u.Valid()
  {
    (available as real / u.capacity).Floor
  }

  lemma AboveBoundUnaffordable(u: Units, k: int, held: int, available: int)
    requires u.Valid() && u.capacity <= u.reserve && 0 <= available
    requires ReserveBound(u, available) < Abs(k)
    ensures !Fundable(u, k, held, available)
  {
    var x, n := available as real, Abs(k) as real;
    MultiplyBelow(x, u.capacity, n);
    MulMonotone(n, u.capacity, u.reserve);
    BoundNonNegative(u, available);
    assert available < CeilTimes(u.reserve, Abs(k));
    CommissionNonNegative(u.cost, k - held);
  }

  lemma MultiplyBelow(x: real, d: real, n: real)
    requires 0.0 < d && x / d < n
    ensures x < d * n
  {
    var q := x / d;
    assert d * q == x;
    MulPositive(d, n - q);
    assert d * n == d * q + d * (n - q);
  }

  /** Where the search starts, nothing affordable has been skipped. */
  lemma StartSkipsNothing(u: Units, target: int, held: int, available: int)
    requires u.Valid() && u.capacity <= u.reserve && 0 <= available
    ensures 0 <= ReserveBound(u, available)
    ensures NoneAbove(u, target, held, available, Min(Abs(target), ReserveBound(u, available)))
  {
    assert 0.0 <= available as real / u.capacity;
    forall j | Between(j, target) && Min(Abs(target), ReserveBound(u, available)) < Abs(j)
      ensures !Fundable(u, j, held, available)
    {
      AboveBoundUnaffordable(u, j, held, available);
    }
  }

  ghost predicate NoneAbove(u: Units, target: int, held: int, available: int, magnitude: int) {
    forall j | Between(j, target) && magnitude < Abs(j) :: !Fundable(u, j, held, available)
  }

  /** The engine's search as a function: the same scan, started no higher than the reserve bound. */
  function Search(u: Units, target: int, held: int, available: int): int
    requires u.Valid()
  {
    if target == 0 || available < 0 then 0
    else
      var start := Min(Abs(target), ReserveBound(u, available));
      Scan(u, Sign(target), if start < 0 then 0 else start, held, available)
  }

  method LargestFundableContracts(u: Units, target: int, held: int, available: int) returns (k: int)
    requires u.Valid()
    ensures k == Search(u, target, held, available)
  {
    if target == 0 || available < 0 {
      return 0;
    }
    var sign := if target > 0 then 1 else -1;
    var magnitude := Min(Abs(target), (available as real / u.capacity).Floor);
    assert 0 <= magnitude by { BoundNonNegative(u, available); }
    while magnitude >= 0
      invariant -1 <= magnitude
      invariant Search(u, target, held, available)
             == if magnitude < 0 then 0 else Scan(u, sign, magnitude, held, available)
    {
      var candidate := sign * magnitude;
      if Fundable(u, candidate, held, available) {
        return candidate;
      }
      magnitude := magnitude - 1;
    }
    return 0;
  }

  /** The fast search returns what the scan from the target returns. */
  lemma SearchIsScan(u: Units, target: int, held: int, available: int)
    requires u.Valid() && u.capacity <= u.reserve
    ensures Search(u, target, held, available) == LargestFundable(u, target, held, available)
  {
    if available < 0 {
      NothingFundable(u, target, held, available);
    } else if target != 0 {
      StartSkipsNothing(u, target, held, available);
      var start := Min(Abs(target), ReserveBound(u, available));
      var k := Scan(u, Sign(target), start, held, available);
      ScanIsMaximal(u, Sign(target), start, held, available);
      forall j | Between(j, target) && Abs(k) < Abs(j) ensures !Fundable(u, j, held, available) {
        assert j == Sign(target) * Abs(j);
      }
      MaximalIsScan(u, target, held, available, k);
    }
  }

  /** A capacity above the true unit reserve makes the search miss an affordable count. */
  lemma SearchMisses(u: Units) returns (n: nat, available: int)
    requires u.Valid() && u.reserve < u.capacity
    ensures LargestFundable(u, n, n, available) == n
    ensures Search(u, n, n, available) < n
  {
    n := CapacityOutruns(u.reserve, u.capacity);
    available := CeilTimes(u.reserve, n);
    CommissionNonNegative(u.cost, 0);
    CeilTimesGrows(u.reserve, 0, n);
    assert Fundable(u, n, n, available);
    DivideBelow(available as real, u.capacity, n as real);
    BoundNonNegative(u, available);
    ScanIsMaximal(u, 1, ReserveBound(u, available), n, available);
  }

  lemma CapacityOutruns(reserve: real, capacity: real) returns (n: nat)
    requires 0.0 < reserve < capacity
    ensures 0 < n && CeilTimes(reserve, n) as real < capacity * n as real
  {
    var gap := capacity - reserve;
    n := Ceil(1.0 / gap);
    assert 0.0 < 1.0 / gap;
    MulMonotone(gap, 1.0 / gap, n as real);
    assert gap * (1.0 / gap) == 1.0;
    assert capacity * n as real == reserve * n as real + gap * n as real;
  }

  lemma DivideBelow(x: real, d: real, n: real)
    requires 0.0 < d && x < d * n
    ensures x / d < n
  {
    assert x == d * (x / d);
    if n <= x / d {
      MulMonotone(d, n, x / d);
    }
  }

  lemma BoundNonNegative(u: Units, available: int)
    requires u.Valid() && 0 <= available
    ensures 0 <= ReserveBound(u, available)
  {
    assert 0.0 <= available as real / u.capacity;
  }

  /** Exactly when the fast search and the scan agree on every target, holding and budget: the
      multiplier passed beside the terms does not exceed the multiplier of the terms. */
  lemma SearchAgreesExactly(cfg: DerivativeConfig, level: real, multiplier: int)
    requires cfg.Valid() && 0.0 < level && 0 < multiplier
    ensures UnitsOf(cfg, level, multiplier).Valid()
    ensures var u := UnitsOf(cfg, level, multiplier);
      (forall target, held, available ::
        Search(u, target, held, available) == LargestFundable(u, target, held, available))
      <==> multiplier <= cfg.multiplier
  {
    UnitsValid(cfg, level, multiplier);
    CapacityOrder(cfg, level, multiplier);
    var u := UnitsOf(cfg, level, multiplier);
    if u.capacity <= u.reserve {
      forall target, held, available
        ensures Search(u, target, held, available) == LargestFundable(u, target, held, available)
      {
        SearchIsScan(u, target, held, available);
      }
    } else {
      var n, available := SearchMisses(u);
      assert Search(u, n, n, available) != LargestFundable(u, n, n, available);
    }
  }

  lemma NothingFundable(u: Units, target: int, held: int, available: int)
    requires u.Valid() && available < 0
    ensures LargestFundable(u, target, held, available) == 0
  {
    LargestFundableIsMaximal(u, target, held, available);
    var k := LargestFundable(u, target, held, available);
    ReserveGrows(u, 0, k);
    CommissionNonNegative(u.cost, k - held);
  }
}
