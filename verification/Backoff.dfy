/** The delay after a failed attempt: a doubling loop on 64-bit durations. */
module Backoff {
  import opened Wire

  const TWO_62: int := 0x4000_0000_0000_0000

  /** `delay *= 2` on an int64. */
  function Double64(x: int): (r: int)
    ensures -TWO_62 <= x < TWO_62 ==> r == 2 * x
  {
    if x >= TWO_62 then 2 * x - 4 * TWO_62
    else if x < -TWO_62 then 2 * x + 4 * TWO_62
    else 2 * x
  }

  function Doubled(delay: int, max: int, shift: nat): int
    decreases shift
  {
    if shift > 0 && delay < max then Doubled(Double64(delay), max, shift - 1) else delay
  }

  /** The delay for the attempt `shift` steps past the first that is delayed. */
  function Delay(base: int, max: int, shift: nat): int {
    var d := Doubled(base, max, shift);
    if d > max || d <= 0 then max else d
  }

  method ComputeDelay(base: int, max: int, shifts: nat) returns (delay: int)
    ensures delay == Delay(base, max, shifts)
  {
    delay := base;
    var shift := shifts;
    while shift > 0 && delay < max
      invariant Doubled(delay, max, shift) == Doubled(base, max, shifts)
    {
      delay := Double64(delay);
      shift := shift - 1;
    }
    if delay > max || delay <= 0 {
      delay := max;
    }
  }

  function Pow2(n: nat): (r: nat)
    ensures r >= 1
  {
    if n == 0 then 1 else 2 * Pow2(n - 1)
  }

  function Min(a: int, b: int): int { if a < b then a else b }

  function Max(a: int, b: int): int { if a < b then b else a }

  /** `base * 2^shift` capped at `max`. */
  function Capped(base: int, max: int, shift: nat): int { Min(max, base * Pow2(shift)) }

  lemma TimesPow2(d: int, n: nat)
    requires d > 0
    ensures d * Pow2(n) >= d && (n > 0 ==> (2 * d) * Pow2(n - 1) == d * Pow2(n))
  {
    assert d * Pow2(n) >= d * 1;
  }

  /** The wrapped doublings of 2^62: -2^63, then zero for good. */
  lemma {:induction false} WrappedAway(d: int, max: int, shift: nat)
    requires d == 0 || d == -2 * TWO_62
    requires max > 0
    ensures Doubled(d, max, shift) <= 0
    decreases shift
  {
    if shift > 0 {
      WrappedAway(Double64(d), max, shift - 1);
    }
  }

  lemma {:induction false} ClosedFormFrom(d: int, max: int, shift: nat)
    requires 0 < d && 0 < max <= TWO_62 + 1
    ensures Delay(d, max, shift) == Capped(d, max, shift)
    decreases shift
  {
    TimesPow2(d, shift);
    if shift > 0 && d < max {
      if d < TWO_62 {
        ClosedFormFrom(2 * d, max, shift - 1);
      } else {
        WrappedAway(Double64(d), max, shift - 1);
        TimesPow2(2 * d, shift - 1);
      }
    }
  }

  /** Two doublings of 2^62 + 1 wrap around to 4. */
  lemma WrapWitness(max: int)
    requires TWO_62 + 1 < max <= INT64_MAX
    ensures Delay(TWO_62 + 1, max, 2) == 4 && Capped(TWO_62 + 1, max, 2) == max
  {
    var d := TWO_62 + 1;
    assert Double64(d) == 2 - 2 * TWO_62 && Double64(Double64(d)) == 4;
    assert Doubled(d, max, 2) == Doubled(Double64(d), max, 1) == Doubled(4, max, 0) == 4;
    assert Pow2(2) == 4;
  }

  /** The closed form holds for every base and every count exactly when the cap is at most
      2^62 + 1 nanoseconds. */
  lemma ClosedFormExact(max: int)
    requires 0 < max <= INT64_MAX
    ensures (forall base, shift: nat :: 0 < base <= INT64_MAX ==> Delay(base, max, shift) == Capped(base, max, shift))
            <==> max <= TWO_62 + 1
  {
    if max <= TWO_62 + 1 {
      forall base, shift: nat | 0 < base <= INT64_MAX ensures Delay(base, max, shift) == Capped(base, max, shift) {
        ClosedFormFrom(base, max, shift);
      }
    } else {
      WrapWitness(max);
    }
  }

  lemma {:induction false} Pow2Monotone(m: nat, n: nat)
    requires m <= n
    ensures Pow2(m) <= Pow2(n)
    decreases n
  {
    if m < n {
      Pow2Monotone(m, n - 1);
    }
  }

  lemma TimesMonotone(a: int, x: int, y: int)
    requires a > 0 && x <= y
    ensures a * x <= a * y
  {
  }

  /** Delays are positive, never above the cap, and do not shrink as failures mount. */
  lemma DelayMonotone(base: int, max: int, m: nat, n: nat)
    requires 0 < base && 0 < max <= TWO_62 + 1 && m <= n
    ensures 0 < Delay(base, max, m) <= Delay(base, max, n) <= max
  {
    ClosedFormFrom(base, max, m);
    ClosedFormFrom(base, max, n);
    Pow2Monotone(m, n);
    TimesPow2(base, m);
    TimesMonotone(base, Pow2(m), Pow2(n));
  }

  /** Whatever the cap, a delay is positive and at most the cap. */
  lemma DelayInRange(base: int, max: int, shift: nat)
    requires 0 < max
    ensures 0 < Delay(base, max, shift) <= max
  {
  }
}
