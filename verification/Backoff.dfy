/** The backoff strategies: how long to wait before a retry, in whole milliseconds plus jitter. */
module Backoff {
  import opened Prelude

  /** Interval fields are milliseconds. They come from time.Durations, so they are integers far below 2^53
      and Go's float64 fields hold them exactly. */
  datatype Backoff =
    | Static(delay: Int64)
    | Exponential(factor: nat, min: int, max: int, jitter: int)
    | Constant(min: int, max: int, jitter: int)
    | Linear(min: int, max: int, jitter: int)

  /** The largest number of whole milliseconds in a time.Duration. */
  const LIMIT_MS: int := MAX_INT64 / MILLISECOND

  predicate InRange(b: Backoff) {
    b.Static? || (0 <= b.min <= LIMIT_MS && 0 <= b.max <= LIMIT_MS && b.jitter <= LIMIT_MS)
  }

  function Pow(f: nat, r: nat): nat {
    if r == 0 then 1 else f * Pow(f, r - 1)
  }

  /** The part of the wait that does not depend on chance, in milliseconds. */
  function Base(b: Backoff, r: nat): int
    requires !b.Static?
  {
    if r == 0 then 0
    else match b
      case Exponential(f, lo, hi, _) => if lo >= hi then hi else Min(lo * Pow(f, r), hi)
      case Constant(lo, hi, _) => Min(lo, hi)
      case Linear(lo, hi, _) => Min(lo * r, hi)
  }

  /** Whether this call draws a random jitter; drawing needs a jitter interval of at least one. */
  predicate Draws(b: Backoff, r: nat) {
    !b.Static? && r > 0 && (b.Exponential? ==> b.min < b.max)
  }

  /** Next(r) when the random source yields j. */
  function Next(b: Backoff, r: nat, j: nat): Int64
    requires Draws(b, r) ==> j < b.jitter
  {
    if b.Static? then b.delay
    else Wrap64((Base(b, r) + if Draws(b, r) then j else 0) * MILLISECOND)
  }

  // ---------------------------------------------------------------- one wait

  lemma BaseRange(b: Backoff, r: nat)
    requires !b.Static? && InRange(b)
    ensures 0 <= Base(b, r) <= b.max
  {
    if r > 0 && b.Exponential? {
      MulNonNegative(b.min, Pow(b.factor, r));
    } else if r > 0 && b.Linear? {
      MulNonNegative(b.min, r);
    }
  }

  lemma MulNonNegative(x: int, y: int)
    requires x >= 0 && y >= 0
    ensures x * y >= 0
  {
  }

  lemma MulMonotone(x: int, y: int, z: int)
    requires x >= 0 && y <= z
    ensures x * y <= x * z
  {
  }

  /** A wait is the exact base plus jitter as long as that fits a time.Duration. */
  lemma NextIsExact(b: Backoff, r: nat, j: nat)
    requires InRange(b) && Draws(b, r) && j < b.jitter
    ensures Next(b, r, j) == (Base(b, r) + j) * MILLISECOND <==> Base(b, r) + j <= LIMIT_MS
    ensures Base(b, r) + j > LIMIT_MS ==> Next(b, r, j) < 0
  {
    BaseRange(b, r);
    WrapMilliseconds(Base(b, r) + j);
  }

  /** The waits without chance: none before the first attempt, a static one always the same, and an
      exponential one whose minimum is not below its maximum at the maximum, without jitter. */
  lemma NextWithoutJitter(b: Backoff, r: nat, j: nat)
    requires InRange(b) && (Draws(b, r) ==> j < b.jitter)
    ensures b.Static? ==> Next(b, r, j) == b.delay
    ensures !b.Static? && r == 0 ==> Next(b, r, j) == 0
    ensures b.Exponential? && b.min >= b.max && r > 0 ==> Next(b, r, j) == b.max * MILLISECOND
  {
    if b.Exponential? && b.min >= b.max && r > 0 {
      WrapMilliseconds(b.max);
    }
  }

  lemma WrapMilliseconds(n: int)
    requires 0 <= n <= 2 * LIMIT_MS
    ensures Wrap64(n * MILLISECOND) == n * MILLISECOND <==> n <= LIMIT_MS
    ensures n > LIMIT_MS ==> Wrap64(n * MILLISECOND) < 0
  {
    assert LIMIT_MS == 9_223_372_036_854;
  }

  /** base(r) <= Next(r) < base(r) + jitter for every outcome of the random source if and only if the
      largest of them is representable; otherwise the largest one wraps to a negative wait. */
  lemma NextWithinJitter(b: Backoff, r: nat)
    requires InRange(b) && Draws(b, r) && b.jitter >= 1
    ensures (forall j: nat :: j < b.jitter ==>
               Base(b, r) * MILLISECOND <= Next(b, r, j) < (Base(b, r) + b.jitter) * MILLISECOND) <==>
            Base(b, r) + b.jitter - 1 <= LIMIT_MS
  {
    BaseRange(b, r);
    if Base(b, r) + b.jitter - 1 <= LIMIT_MS {
      forall j: nat | j < b.jitter
        ensures Base(b, r) * MILLISECOND <= Next(b, r, j) < (Base(b, r) + b.jitter) * MILLISECOND
      {
        NextIsExact(b, r, j);
      }
    } else {
      NextIsExact(b, r, b.jitter - 1);
    }
  }

  lemma {:induction false} PowGrows(f: nat, r: nat, s: nat)
    requires f >= 1 && r <= s
    ensures 1 <= Pow(f, r) <= Pow(f, s)
    decreases s
  {
    if r < s {
      PowGrows(f, r, s - 1);
      MulMonotone(Pow(f, s - 1), 1, f);
    } else if r > 0 {
      PowGrows(f, r - 1, s - 1);
      MulMonotone(Pow(f, r - 1), 1, f);
    }
  }

  /** Waits never shrink from one retry to the next, and once they reach the cap they stay there. */
  lemma BaseGrows(b: Backoff, r: nat, s: nat)
    requires !b.Static? && InRange(b) && (b.Exponential? ==> b.factor >= 1) && r <= s
    ensures Base(b, r) <= Base(b, s)
    ensures 0 < r && Base(b, r) == b.max ==> Base(b, s) == b.max
  {
    BaseRange(b, r);
    BaseRange(b, s);
    if 0 < r && b.Exponential? {
      PowGrows(b.factor, r, s);
      MulMonotone(b.min, Pow(b.factor, r), Pow(b.factor, s));
    } else if 0 < r && b.Linear? {
      MulMonotone(b.min, r, s);
    }
  }

  lemma {:induction false} PowAtLeast(f: nat, r: nat)
    requires f >= 2
    ensures r + 1 <= Pow(f, r)
  {
    if r > 0 {
      PowAtLeast(f, r - 1);
      MulMonotone(Pow(f, r - 1), 2, f);
    }
  }

  /** A doubling or faster backoff reaches its cap after no more retries than the cap is a multiple of the
      minimum. */
  lemma CapReached(b: Backoff, r: nat)
    requires b.Exponential? && b.factor >= 2 && 1 <= b.min <= b.max && r > 0 && r >= b.max / b.min
    ensures Base(b, r) == b.max
  {
    PowAtLeast(b.factor, r);
    MulMonotone(b.min, b.max / b.min + 1, Pow(b.factor, r));
    assert b.min * (b.max / b.min + 1) == b.min * (b.max / b.min) + b.min;
  }

  /** There is one retry from which on every wait is at the cap, and before which none is; it comes no later
      than the cap is a multiple of the minimum. */
  lemma SaturationPoint(b: Backoff) returns (s: nat)
    requires b.Exponential? && InRange(b) && b.factor >= 2 && 1 <= b.min <= b.max
    ensures 1 <= s <= b.max / b.min
    ensures forall r: nat :: r > 0 ==> (Base(b, r) == b.max <==> r >= s)
  {
    s := 1;
    CapReached(b, b.max / b.min);
    while Base(b, s) != b.max
      invariant 1 <= s <= b.max / b.min
      invariant forall r :: 0 < r < s ==> Base(b, r) != b.max
      decreases b.max / b.min - s
    {
      s := s + 1;
    }
    forall r | r >= s ensures Base(b, r) == b.max {
      BaseGrows(b, s, r);
    }
  }

  /** With the same bounds, constant waits are the shortest and exponential ones the longest. */
  lemma StrategiesOrdered(f: nat, lo: int, hi: int, j: int, r: nat)
    requires f >= 2 && 0 <= lo && 0 <= hi
    ensures Base(Constant(lo, hi, j), r) <= Base(Linear(lo, hi, j), r) <= Base(Exponential(f, lo, hi, j), r)
  {
    if r > 0 {
      PowAtLeast(f, r);
      MulMonotone(lo, 1, r);
      MulMonotone(lo, r, Pow(f, r));
    }
  }

  // ---------------------------------------------------------------- many waits

  /** base(0) + ... + base(n - 1); base(0) is 0. */
  function SumBase(b: Backoff, n: nat): int
    requires !b.Static?
  {
    if n == 0 then 0 else SumBase(b, n - 1) + Base(b, n - 1)
  }

  lemma {:induction false} SumBaseCapped(b: Backoff, n: nat)
    requires !b.Static? && InRange(b)
    ensures 0 <= SumBase(b, n) && (n >= 1 ==> SumBase(b, n) <= (n - 1) * b.max)
  {
    if n > 0 {
      SumBaseCapped(b, n - 1);
      BaseRange(b, n - 1);
      if n > 1 {
        assert (n - 1) * b.max == (n - 2) * b.max + b.max;
      }
    }
  }

  /** A constant backoff waits the minimum, and min * (n - 1) in all before attempt n. */
  lemma {:induction false} SumConstant(b: Backoff, n: nat)
    requires b.Constant? && 0 <= b.min <= b.max && n >= 1
    ensures SumBase(b, n) == b.min * (n - 1)
    ensures n >= 2 ==> Base(b, n - 1) == b.min
  {
    if n == 1 {
      assert SumBase(b, 1) == SumBase(b, 0) + Base(b, 0);
    } else {
      SumConstant(b, n - 1);
      Distribute(b.min, n - 2, 1);
    }
  }

  /** Below the cap a linear backoff waits min * n(n-1)/2 in all before attempt n. */
  lemma {:induction false} SumLinear(b: Backoff, n: nat)
    requires b.Linear? && b.min >= 0 && (n > 0 ==> b.min * (n - 1) <= b.max)
    ensures 2 * SumBase(b, n) == b.min * (n * (n - 1))
  {
    if n > 1 {
      MulMonotone(b.min, n - 2, n - 1);
      SumLinear(b, n - 1);
      assert Base(b, n - 1) == b.min * (n - 1);
      LinearStep(b.min, n);
    }
  }

  lemma LinearStep(m: int, n: int)
    ensures m * ((n - 1) * (n - 2)) + 2 * (m * (n - 1)) == m * (n * (n - 1))
  {
    assert (n - 1) * (n - 2) + 2 * (n - 1) == n * (n - 1);
    Distribute(m, (n - 1) * (n - 2), 2 * (n - 1));
    assert m * (2 * (n - 1)) == 2 * (m * (n - 1));
  }

  lemma Distribute(m: int, x: int, y: int)
    ensures m * (x + y) == m * x + m * y
  {
  }

  /** Below the cap an exponential backoff waits min * (f^n - f)/(f - 1) in all before attempt n. */
  lemma {:induction false} SumExponential(b: Backoff, n: nat)
    requires b.Exponential? && b.factor >= 1 && 0 <= b.min < b.max && n >= 1
    requires n > 1 ==> b.min * Pow(b.factor, n - 1) <= b.max
    ensures (b.factor - 1) * SumBase(b, n) == b.min * (Pow(b.factor, n) - b.factor)
  {
    var f, m := b.factor, b.min;
    if n == 1 {
      assert Pow(f, 1) == f * Pow(f, 0);
      assert SumBase(b, 1) == SumBase(b, 0) + Base(b, 0) == 0;
    } else {
      var p := Pow(f, n - 1);
      PowGrows(f, n - 2, n - 1);
      MulMonotone(m, Pow(f, n - 2), p);
      SumExponential(b, n - 1);
      assert Base(b, n - 1) == m * p;
      ExponentialStep(f, m, p, SumBase(b, n - 1));
    }
  }

  lemma ExponentialStep(f: int, m: int, p: int, sum: int)
    requires (f - 1) * sum == m * (p - f)
    ensures (f - 1) * (sum + m * p) == m * (f * p - f)
  {
    Distribute(f - 1, sum, m * p);
    assert (f - 1) * (m * p) == m * ((f - 1) * p);
    assert (f - 1) * p == f * p - p;
    Distribute(m, p - f, f * p - p);
  }
}
