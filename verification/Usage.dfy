/** Cost normalisation to micro-units (src/domain/usage.py) and the 28-digit quotient behind the
    budget warning (src/application/budgets.py, `_snapshot`). */
module Usage {
  import opened Outcomes

  const MICRO := 1_000_000

  // Ten to the 28: a Decimal coefficient has at most 28 digits in the default context.
  const COEFFICIENT_BOUND := 10_000_000_000_000_000_000_000_000_000

  const PRECISION_FLOOR := 1_000_000_000_000_000_000_000_000_000

  // Numeric(18,6) columns hold fewer than ten to the 18 micro-units.
  const NUMERIC_BOUND := 1_000_000_000_000_000_000

  datatype CostError = InvalidCost

  /** The Decimal default rounding: to the nearest integer, ties to the even one. */
  function RoundHalfEven(x: real): int {
    var low := x.Floor;
    var rest := x - low as real;
    if rest < 0.5 then low
    else if rest > 0.5 then low + 1
    else if low % 2 == 0 then low
    else low + 1
  }

  /** `normalized_cost` on a finite value, answered in whole micro-units. */
  function NormalizedCost(value: real): Result<int, CostError> {
    var units := RoundHalfEven(value * MICRO as real);
    if units >= COEFFICIENT_BOUND || units <= -COEFFICIENT_BOUND then Err(InvalidCost)
    else if units < 0 then Err(InvalidCost)
    else Ok(units)
  }

  function Amount(units: int): real {
    units as real / MICRO as real
  }

  ghost predicate IsNearestTiesToEven(x: real, n: int) {
    && -0.5 <= n as real - x <= 0.5
    && (n as real - x == 0.5 || n as real - x == -0.5 ==> n % 2 == 0)
  }

  /** The rounded integer is the nearest one, and no other integer is nearest with ties to even. */
  lemma RoundingIsNearest(x: real, n: int)
    ensures n == RoundHalfEven(x) <==> IsNearestTiesToEven(x, n)
  {
    var low := x.Floor;
    assert low as real <= x < low as real + 1.0;
    if IsNearestTiesToEven(x, n) {
      assert low as real - 0.5 <= n as real <= low as real + 1.5;
      assert n == low || n == low + 1;
    }
  }

  lemma RoundingIsMonotone(x: real, y: real)
    requires x <= y
    ensures RoundHalfEven(x) <= RoundHalfEven(y)
  {
    RoundingIsNearest(x, RoundHalfEven(x));
    RoundingIsNearest(y, RoundHalfEven(y));
  }

  /** A cost is accepted exactly from minus half a micro-unit up to the 28-digit bound. */
  lemma AcceptedRange(value: real)
    ensures NormalizedCost(value).Ok? <==> -0.0000005 <= value < 10000000000000000000000.0 - 0.0000005
  {
    var x := value * MICRO as real;
    var n := RoundHalfEven(x);
    RoundingIsNearest(x, n);
    if value >= 10000000000000000000000.0 - 0.0000005 {
      assert x >= COEFFICIENT_BOUND as real - 0.5;
      RoundingIsNearest(COEFFICIENT_BOUND as real - 0.5, COEFFICIENT_BOUND);
      RoundingIsMonotone(COEFFICIENT_BOUND as real - 0.5, x);
    } else if value < -0.0000005 {
      assert x < -0.5;
    } else {
      assert -0.5 <= x < COEFFICIENT_BOUND as real - 0.5;
      RoundingIsNearest(-0.5, 0);
      RoundingIsMonotone(-0.5, x);
    }
  }

  /** An accepted cost is the micro-unit nearest to the value, and normalising it again changes
      nothing; so `normalized_cost` is the identity on every stored column. */
  lemma NormalizedIsNearestAndStable(value: real)
    requires NormalizedCost(value).Ok?
    ensures IsNearestTiesToEven(value * MICRO as real, NormalizedCost(value).value)
    ensures NormalizedCost(Amount(NormalizedCost(value).value)) == NormalizedCost(value)
  {
    var n := NormalizedCost(value).value;
    RoundingIsNearest(value * MICRO as real, n);
    assert Amount(n) * MICRO as real == n as real;
    RoundingIsNearest(n as real, n);
  }

  lemma NormalizedIsMonotone(low: real, high: real)
    requires low <= high && NormalizedCost(low).Ok? && NormalizedCost(high).Ok?
    ensures NormalizedCost(low).value <= NormalizedCost(high).value
  {
    RoundingIsMonotone(low * MICRO as real, high * MICRO as real);
  }

  function Total(values: seq<real>): real {
    if values == [] then 0.0 else values[0] + Total(values[1..])
  }

  function RoundedTotal(values: seq<real>): int
    requires forall v | v in values :: NormalizedCost(v).Ok?
  {
    if values == [] then 0 else NormalizedCost(values[0]).value + RoundedTotal(values[1..])
  }

  /** Rounding n costs one by one is off by at most n halves of a micro-unit. */
  lemma {:induction false} RoundingErrorIsBounded(values: seq<real>)
    requires forall v | v in values :: NormalizedCost(v).Ok?
    ensures -(|values| as real) / 2.0
         <= RoundedTotal(values) as real - Total(values) * MICRO as real
         <= |values| as real / 2.0
  {
    if values != [] {
      RoundingErrorIsBounded(values[1..]);
      NormalizedIsNearestAndStable(values[0]);
      assert Total(values) * MICRO as real
          == values[0] * MICRO as real + Total(values[1..]) * MICRO as real;
    }
  }

  // ----- The warning quotient -----

  function DivideHalfEven(a: nat, b: nat): nat
    requires b > 0
  {
    var q, r := a / b, a % b;
    if 2 * r < b then q
    else if 2 * r > b then q + 1
    else if q % 2 == 0 then q
    else q + 1
  }

  /** A Decimal quotient, `coefficient / scale` with the scale a power of ten. */
  datatype Quotient = Quotient(coefficient: nat, scale: nat)

  /** Shift the dividend until the quotient has 28 digits, then round once. */
  function Divide28(a: nat, scale: nat, b: nat): Quotient
    requires a > 0 && b > 0
    decreases PRECISION_FLOOR * b - a
  {
    if a >= PRECISION_FLOOR * b then Quotient(DivideHalfEven(a, b), scale)
    else Divide28(10 * a, 10 * scale, b)
  }

  /** `ratio >= warning_threshold`, the threshold a whole number of ten-thousandths. No column is
      ever negative (`Bookkeeping.BalancesAreNonNegative`). */
  predicate Warns(spent: int, reserved: int, limit: int, threshold: nat) {
    if limit <= 0 then 1 * 10_000 >= threshold
    else if spent + reserved <= 0 then 0 >= threshold
    else
      var q := Divide28(spent + reserved, 1, limit);
      q.coefficient * 10_000 >= threshold * q.scale
  }

  lemma DivideHalfEvenBounds(a: nat, b: nat)
    requires b > 0
    ensures 2 * a - b <= 2 * b * DivideHalfEven(a, b) <= 2 * a + b
  {
    var q, r := a / b, a % b;
    assert a == q * b + r;
    assert b * (q + 1) == q * b + b;
  }

  /** The power of ten by which `Divide28` shifts its dividend. */
  ghost function Shift(a: nat, b: nat): nat
    requires a > 0 && b > 0
    decreases PRECISION_FLOOR * b - a
  {
    if a >= PRECISION_FLOOR * b then 1 else 10 * Shift(10 * a, b)
  }

  lemma {:induction false} ShiftFillsTheDigits(a: nat, b: nat)
    requires a > 0 && b > 0
    ensures Shift(a, b) * a >= PRECISION_FLOOR * b
    decreases PRECISION_FLOOR * b - a
  {
    if a < PRECISION_FLOOR * b {
      ShiftFillsTheDigits(10 * a, b);
      assert Shift(a, b) * a == Shift(10 * a, b) * (10 * a);
    }
  }

  lemma {:induction false} DivideIsShifted(a: nat, scale: nat, b: nat)
    requires a > 0 && b > 0
    ensures Divide28(a, scale, b) == Quotient(DivideHalfEven(Shift(a, b) * a, b), Shift(a, b) * scale)
    decreases PRECISION_FLOOR * b - a
  {
    if a < PRECISION_FLOOR * b {
      DivideIsShifted(10 * a, 10 * scale, b);
      assert Shift(a, b) * a == Shift(10 * a, b) * (10 * a);
      assert Shift(a, b) * scale == Shift(10 * a, b) * (10 * scale);
    } else {
      assert Shift(a, b) * a == a && Shift(a, b) * scale == scale;
    }
  }

  lemma ScaleBoth(k: nat, x: int, y: int)
    requires x <= y
    ensures k * x <= k * y
  {
  }

  lemma CancelBoth(k: int, x: int, y: int)
    requires k > 0 && k * x <= k * y
    ensures x <= y
  {
    if x > y {
      assert k * (y + 1) == k * y + k;
      ScaleBoth(k, y + 1, x);
      assert false;
    }
  }

  /** A quotient that reaches the threshold still reaches it once rounded, the threshold being a
      whole number of last digits. */
  lemma RoundingKeepsReached(shift: nat, a: nat, b: nat, threshold: nat, steps: nat)
    requires b > 0 && shift == 10_000 * steps
    requires a * 10_000 >= threshold * b
    ensures DivideHalfEven(shift * a, b) * 10_000 >= threshold * shift
  {
    var target := threshold * steps;
    DivideHalfEvenBounds(shift * a, b);
    DividendCovers(shift, a, b, threshold, steps);
    HalfUpReaches(shift * a, b, DivideHalfEven(shift * a, b), target);
    assert target * 10_000 == threshold * shift;
  }

  lemma DividendCovers(shift: nat, a: nat, b: nat, threshold: nat, steps: nat)
    requires shift == 10_000 * steps && a * 10_000 >= threshold * b
    ensures shift * a >= b * (threshold * steps)
  {
    ScaleBoth(steps, threshold * b, a * 10_000);
    assert shift * a == steps * (a * 10_000);
    assert steps * (threshold * b) == b * (threshold * steps);
  }

  lemma HalfUpReaches(product: nat, b: nat, n: nat, target: nat)
    requires b > 0 && 2 * product - b <= 2 * b * n && product >= b * target
    ensures n >= target
  {
    assert b * (2 * target - 1) == 2 * (b * target) - b;
    assert b * (2 * n) == 2 * b * n;
    CancelBoth(b, 2 * target - 1, 2 * n);
  }

  /** A quotient that misses the threshold misses it by more than the rounding can add. */
  lemma RoundingKeepsMissed(shift: nat, a: nat, b: nat, threshold: nat)
    requires b > 0 && 2 * shift > 10_000 * b
    requires a * 10_000 < threshold * b
    ensures DivideHalfEven(shift * a, b) * 10_000 < threshold * shift
  {
    var n := DivideHalfEven(shift * a, b);
    DivideHalfEvenBounds(shift * a, b);
    ScaleBoth(shift, a * 10_000 + 1, threshold * b);
    MissedByMore(shift * a, shift, n, b, threshold, shift * (threshold * b));
  }

  lemma MissedByMore(product: nat, shift: nat, n: nat, b: nat, threshold: nat, goal: nat)
    requires b > 0 && 2 * shift > 10_000 * b
    requires 2 * b * n <= 2 * product + b
    requires shift * (threshold * b) == goal
    requires product * 10_000 + shift <= goal
    ensures n * 10_000 < threshold * shift
  {
    assert goal == b * (threshold * shift);
    assert b * (n * 10_000) * 2 == 2 * b * n * 10_000;
    assert b * (n * 10_000) * 2 < 2 * goal;
    if n * 10_000 >= threshold * shift {
      ScaleBoth(b, threshold * shift, n * 10_000);
      assert false;
    }
  }

  lemma ShiftOnce(a: nat, b: nat, next: nat)
    requires 0 < a < PRECISION_FLOOR && b > 0 && next == 10 * a
    ensures Shift(a, b) == 10 * Shift(next, b)
  {
    ScaleBoth(PRECISION_FLOOR, 1, b);
  }

  lemma ShiftIsWhole(a: nat, b: nat)
    requires 0 < a < 2 * NUMERIC_BOUND && b > 0
    ensures Shift(a, b) % 10_000 == 0
  {
    ShiftOnce(a, b, 10 * a);
    ShiftOnce(10 * a, b, 100 * a);
    ShiftOnce(100 * a, b, 1_000 * a);
    ShiftOnce(1_000 * a, b, 10_000 * a);
    assert Shift(a, b) == 10_000 * Shift(10_000 * a, b);
  }

  lemma ShiftIsLarge(a: nat, b: nat)
    requires 0 < a < b < NUMERIC_BOUND
    ensures 2 * Shift(a, b) > 10_000 * b
  {
    ShiftFillsTheDigits(a, b);
    ScaleBoth(Shift(a, b), a, b);
    assert Shift(a, b) * b == b * Shift(a, b);
    CancelBoth(b, PRECISION_FLOOR, Shift(a, b));
  }

  /** The warning computed with 28-digit division is the exact comparison, for every row that fits
      its columns. An empty limit always warns. */
  lemma WarningIsExact(spent: nat, reserved: nat, limit: nat, threshold: nat)
    requires spent < NUMERIC_BOUND && reserved < NUMERIC_BOUND && limit < NUMERIC_BOUND
    requires 0 < threshold < 10_000
    ensures Warns(spent, reserved, limit, threshold)
       <==> limit == 0 || (spent + reserved) * 10_000 >= threshold * limit
  {
    var a := spent + reserved;
    if limit > 0 && a == 0 {
      ScaleBoth(threshold, 1, limit);
    } else if limit > 0 {
      var shift := Shift(a, limit);
      DivideIsShifted(a, 1, limit);
      if a * 10_000 >= threshold * limit {
        ShiftIsWhole(a, limit);
        RoundingKeepsReached(shift, a, limit, threshold, shift / 10_000);
      } else {
        ScaleBoth(limit, threshold, 10_000);
        ShiftIsLarge(a, limit);
        RoundingKeepsMissed(shift, a, limit, threshold);
      }
    }
  }
}
