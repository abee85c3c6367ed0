/**
  Durations, ticks and deadlines.
 */
module Time {
  const U64_MAX: nat := 0xFFFF_FFFF_FFFF_FFFF
  const U64_SIZE: nat := 0x1_0000_0000_0000_0000

  function DivCeil(a: nat, b: nat): nat
    requires b > 0
  {
    if a % b == 0 then a / b else a / b + 1
  }

  /** Ticks needed to cover a duration in nanoseconds, never fewer than one. */
  function TicksFor(duration: nat, sliceNs: nat): nat {
    if sliceNs == 0 then 1
    else
      var n := DivCeil(duration, sliceNs);
      if n == 0 then 1 else if n > U64_MAX then U64_MAX else n
  }

  /** deadline_after and deadline_add: 64-bit addition wraps. */
  function DeadlineAdd(deadline: nat, ticks: nat): nat {
    (deadline + ticks) % U64_SIZE
  }

  lemma DivCeilIsLeast(a: nat, b: nat)
    requires b > 0
    ensures DivCeil(a, b) * b >= a
    ensures forall n: nat | n * b >= a :: n >= DivCeil(a, b)
  {
    var q, r := a / b, a % b;
    assert a == q * b + r;
    if r != 0 {
      assert (q + 1) * b == q * b + b;
    }
    forall n: nat | n * b >= a ensures n >= DivCeil(a, b) {
      if n < DivCeil(a, b) {
        TooFew(n, q, b);
      }
    }
  }

  lemma TooFew(n: nat, q: nat, b: nat)
    requires n <= q
    ensures n * b <= q * b
    ensures n < q ==> n * b + b <= q * b
  {
    var d: nat := q - n;
    assert q * b == n * b + d * b;
    if d >= 1 {
      assert d * b == (d - 1) * b + b;
    }
  }

  /** A sleep is rounded up, never down, and by less than a tick: TicksFor is the least
      number of ticks, at least one, that covers the duration (short of 64-bit overflow). */
  lemma TicksForIsLeast(duration: nat, sliceNs: nat)
    requires sliceNs > 0 && DivCeil(duration, sliceNs) <= U64_MAX
    ensures TicksFor(duration, sliceNs) >= 1
    ensures TicksFor(duration, sliceNs) * sliceNs >= duration
    ensures forall n: nat | n >= 1 && n * sliceNs >= duration :: n >= TicksFor(duration, sliceNs)
  {
    DivCeilIsLeast(duration, sliceNs);
  }

  /** Past 64 bits the answer saturates, and then it is too short. */
  lemma TicksForSaturates(duration: nat, sliceNs: nat)
    requires sliceNs > 0
    ensures TicksFor(duration, sliceNs) * sliceNs < duration <==> DivCeil(duration, sliceNs) > U64_MAX
  {
    DivCeilIsLeast(duration, sliceNs);
    if DivCeil(duration, sliceNs) > U64_MAX {
      assert !(U64_MAX >= DivCeil(duration, sliceNs));
    }
  }

  /** Adding periods to an absolute deadline never drifts: n periods later it is exactly n
      periods later, whenever the task actually woke in between. */
  lemma {:induction false} PeriodsDoNotDrift(deadline: nat, period: nat, n: nat)
    ensures Periods(deadline, period, n) == (deadline + n * period) % U64_SIZE
  {
    if n == 0 {
    } else {
      PeriodsDoNotDrift(deadline, period, n - 1);
      AddMod(deadline + (n - 1) * period, period);
      assert deadline + (n - 1) * period + period == deadline + n * period;
    }
  }

  function Periods(deadline: nat, period: nat, n: nat): nat {
    if n == 0 then deadline % U64_SIZE else DeadlineAdd(Periods(deadline, period, n - 1), period)
  }

  lemma AddMod(a: nat, b: nat)
    ensures (a % U64_SIZE + b) % U64_SIZE == (a + b) % U64_SIZE
  {
    assert a == (a / U64_SIZE) * U64_SIZE + a % U64_SIZE;
  }
}
