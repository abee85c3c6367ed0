/**
  Weighted round robin over one ring of slices, as arithmetic.

  A group whose children hold slices s[0], s[1], ... serves them in laps of Lap(s)
  ticks.  Nothing here mentions cursors or remaining quanta: the child that owns the
  group's tick number t is found from t by division alone.
 */
module RoundRobin {

  /** Every child asks for at least one tick. */
  ghost predicate Positive(s: seq<nat>) {
    forall i | 0 <= i < |s| :: 1 <= s[i]
  }

  /** The total of the first i slices. */
  ghost function Prefix(s: seq<nat>, i: nat): nat
    requires i <= |s|
  {
    if i == 0 then 0 else Prefix(s, i - 1) + s[i - 1]
  }

  /** The length of one lap. */
  ghost function Lap(s: seq<nat>): nat {
    Prefix(s, |s|)
  }

  lemma {:induction false} PrefixMonotone(s: seq<nat>, i: nat, j: nat)
    requires i <= j <= |s|
    ensures Prefix(s, i) <= Prefix(s, j)
    decreases j
  {
    if i < j {
      PrefixMonotone(s, i, j - 1);
    }
  }

  lemma {:induction false} PrefixAtLeast(s: seq<nat>, i: nat)
    requires Positive(s) && i <= |s|
    ensures i <= Prefix(s, i)
  {
    if i > 0 {
      PrefixAtLeast(s, i - 1);
    }
  }

  /** The child whose stretch of the lap contains offset o. */
  ghost function Owner(s: seq<nat>, o: nat): (i: nat)
    requires o < Lap(s)
    ensures i < |s| && Prefix(s, i) <= o < Prefix(s, i + 1)
  {
    OwnerBelow(s, o, |s|)
  }

  ghost function OwnerBelow(s: seq<nat>, o: nat, n: nat): (i: nat)
    requires n <= |s| && o < Prefix(s, n)
    ensures i < n && Prefix(s, i) <= o < Prefix(s, i + 1)
  {
    if Prefix(s, n - 1) <= o then n - 1 else OwnerBelow(s, o, n - 1)
  }

  lemma OwnerUnique(s: seq<nat>, o: nat, i: nat)
    requires i < |s| && Prefix(s, i) <= o < Prefix(s, i + 1)
    ensures o < Lap(s) && Owner(s, o) == i
  {
    PrefixMonotone(s, i + 1, |s|);
    var j := Owner(s, o);
    if j < i {
      PrefixMonotone(s, j + 1, i);
    } else if i < j {
      PrefixMonotone(s, i + 1, j);
    }
  }

  /** Division with remainder, by repeated subtraction (see DivisionIsDivision). */
  function Quot(t: nat, lap: nat): nat
    requires lap > 0
  {
    if t < lap then 0 else Quot(t - lap, lap) + 1
  }

  function Rem(t: nat, lap: nat): (r: nat)
    requires lap > 0
    ensures r < lap
  {
    if t < lap then t else Rem(t - lap, lap)
  }

  ghost function Times(q: nat, s: nat): nat {
    if q == 0 then 0 else Times(q - 1, s) + s
  }

  lemma {:induction false} TimesIsProduct(q: nat, s: nat)
    ensures Times(q, s) == q * s
  {
    if q > 0 {
      TimesIsProduct(q - 1, s);
      assert q * s == (q - 1) * s + s;
    }
  }

  lemma {:induction false} Recompose(t: nat, lap: nat)
    requires lap > 0
    ensures t == Times(Quot(t, lap), lap) + Rem(t, lap)
  {
    if t >= lap {
      Recompose(t - lap, lap);
    }
  }

  lemma DivisionIsDivision(t: nat, lap: nat)
    requires lap > 0
    ensures Quot(t, lap) == t / lap && Rem(t, lap) == t % lap
  {
    Recompose(t, lap);
    TimesIsProduct(Quot(t, lap), lap);
    DivModUnique(t, lap, Quot(t, lap), Rem(t, lap));
  }

  lemma DivModUnique(t: nat, lap: nat, q: nat, r: nat)
    requires r < lap && t == q * lap + r
    ensures t / lap == q && t % lap == r
  {
    var q' := t / lap;
    assert t == q' * lap + t % lap;
    if q' < q {
      LapsApart(lap, q', q);
    } else if q < q' {
      LapsApart(lap, q, q');
    }
  }

  lemma LapsApart(lap: nat, p: nat, q: nat)
    requires p < q
    ensures p * lap + lap <= q * lap
  {
    var d := q - p - 1;
    assert q * lap == (p + 1 + d) * lap == p * lap + lap + d * lap;
  }

  lemma {:induction false} Decompose(q: nat, r: nat, lap: nat)
    requires r < lap
    ensures Quot(Times(q, lap) + r, lap) == q && Rem(Times(q, lap) + r, lap) == r
  {
    if q > 0 {
      Decompose(q - 1, r, lap);
    }
  }

  /** Division by a lap, one tick later. */
  lemma {:induction false} NextOffset(t: nat, lap: nat)
    requires lap > 0
    ensures Rem(t, lap) + 1 < lap ==> Rem(t + 1, lap) == Rem(t, lap) + 1 && Quot(t + 1, lap) == Quot(t, lap)
    ensures Rem(t, lap) + 1 == lap ==> Rem(t + 1, lap) == 0 && Quot(t + 1, lap) == Quot(t, lap) + 1
  {
    if t >= lap {
      NextOffset(t - lap, lap);
    }
  }

  /** The child that owns the group's tick number t. */
  ghost function OwnerOfTick(s: seq<nat>, t: nat): (i: nat)
    requires Positive(s) && |s| > 0
    ensures i < |s|
  {
    PrefixAtLeast(s, |s|);
    Owner(s, Rem(t, Lap(s)))
  }

  /** How far into the owner's slice tick t falls. */
  ghost function UsedAt(s: seq<nat>, t: nat): (u: nat)
    requires Positive(s) && |s| > 0
    ensures u < s[OwnerOfTick(s, t)]
  {
    PrefixAtLeast(s, |s|);
    Rem(t, Lap(s)) - Prefix(s, OwnerOfTick(s, t))
  }

  ghost function Succ(i: nat, n: nat): nat {
    if i + 1 >= n then 0 else i + 1
  }

  ghost function Clamp(d: int, top: nat): (c: nat)
    ensures c <= top
  {
    if d <= 0 then 0 else if d <= top then d else top
  }

  /** How many of the group's first t ticks belong to child i: its slice for every whole
      lap, and its part of the lap in progress. */
  ghost function Share(s: seq<nat>, i: nat, t: nat): nat
    requires Positive(s) && i < |s|
  {
    PrefixAtLeast(s, |s|);
    Times(Quot(t, Lap(s)), s[i]) + Clamp(Rem(t, Lap(s)) - Prefix(s, i), s[i])
  }

  /** One more tick of the group is one more tick of the owning child, and of no other. */
  lemma ShareStep(s: seq<nat>, i: nat, t: nat)
    requires Positive(s) && i < |s|
    ensures Share(s, i, t + 1) == Share(s, i, t) + (if OwnerOfTick(s, t) == i then 1 else 0)
  {
    PrefixAtLeast(s, |s|);
    var w := OwnerOfTick(s, t);
    NextOffset(t, Lap(s));
    PrefixMonotone(s, i + 1, |s|);
    if i < w {
      PrefixMonotone(s, i + 1, w);
    } else if w < i {
      PrefixMonotone(s, w + 1, i);
    }
    if Rem(t, Lap(s)) + 1 == Lap(s) {
      PrefixMonotone(s, w + 1, |s|);
    }
  }

  /** Where the turn is one tick later: it stays until the owner's slice is used up, and
      then the very next child begins its slice from the start. */
  lemma OwnerStep(s: seq<nat>, t: nat)
    requires Positive(s) && |s| > 0
    ensures var i := OwnerOfTick(s, t);
            if UsedAt(s, t) + 1 < s[i]
            then OwnerOfTick(s, t + 1) == i && UsedAt(s, t + 1) == UsedAt(s, t) + 1
            else OwnerOfTick(s, t + 1) == Succ(i, |s|) && UsedAt(s, t + 1) == 0
  {
    PrefixAtLeast(s, |s|);
    var o, i := Rem(t, Lap(s)), OwnerOfTick(s, t);
    NextOffset(t, Lap(s));
    PrefixMonotone(s, i + 1, |s|);
    if o + 1 < Prefix(s, i + 1) {
      OwnerUnique(s, o + 1, i);
    } else if i + 1 < |s| {
      assert Prefix(s, i + 2) == Prefix(s, i + 1) + s[i + 1];
      PrefixMonotone(s, i + 2, |s|);
      OwnerUnique(s, o + 1, i + 1);
    } else {
      OwnerUnique(s, 0, 0);
    }
  }

  /** A child's share never leaves the band of width one slice around its exact
      proportion, so two siblings never drift apart: the difference of their shares,
      weighted by each other's slices, stays within one slice of each. */
  lemma FairShares(s: seq<nat>, i: nat, j: nat, t: nat)
    requires Positive(s) && i < |s| && j < |s|
    ensures -(s[i] * s[j]) <= Share(s, i, t) * s[j] - Share(s, j, t) * s[i] <= s[i] * s[j]
  {
    PrefixAtLeast(s, |s|);
    var q, o := Quot(t, Lap(s)), Rem(t, Lap(s));
    Balance(q, s[i], s[j], Clamp(o - Prefix(s, i), s[i]), Clamp(o - Prefix(s, j), s[j]));
  }

  lemma Balance(q: nat, a: nat, b: nat, ci: nat, cj: nat)
    requires ci <= a && cj <= b
    ensures -(a * b) <= (Times(q, a) + ci) * b - (Times(q, b) + cj) * a <= a * b
  {
    TimesIsProduct(q, a);
    TimesIsProduct(q, b);
    Distribute(q, a, b, ci);
    Distribute(q, b, a, cj);
    assert q * (a * b) == q * (b * a);
    MulMonotone(ci, a, b);
    MulMonotone(cj, b, a);
  }

  lemma Distribute(q: nat, a: nat, b: nat, c: nat)
    ensures (q * a + c) * b == q * (a * b) + c * b
  {
    assert (q * a) * b == q * (a * b);
  }

  lemma MulMonotone(x: nat, y: nat, z: nat)
    requires x <= y
    ensures 0 <= x * z <= y * z
  {
    assert y * z == x * z + (y - x) * z;
  }

  /** No child waits longer than the slices of the others: out of any
      Lap - s[i] + 1 consecutive ticks of the group, child i owns at least one. */
  lemma WaitsAtMostALap(s: seq<nat>, i: nat, t: nat) returns (u: nat)
    requires Positive(s) && i < |s|
    ensures t <= u <= t + Lap(s) - s[i]
    ensures OwnerOfTick(s, u) == i
  {
    PrefixAtLeast(s, |s|);
    PrefixMonotone(s, i + 1, |s|);
    var lap, q, o := Lap(s), Quot(t, Lap(s)), Rem(t, Lap(s));
    Recompose(t, lap);
    if Prefix(s, i) <= o < Prefix(s, i + 1) {
      u := t;
      OwnerUnique(s, o, i);
    } else if o < Prefix(s, i) {
      u := t + (Prefix(s, i) - o);
      FirstTickOfTurn(s, i, q, u);
    } else {
      u := t + (lap - o) + Prefix(s, i);
      FirstTickOfTurn(s, i, q + 1, u);
    }
  }

  lemma FirstTickOfTurn(s: seq<nat>, i: nat, q: nat, u: nat)
    requires Positive(s) && i < |s| && u == Times(q, Lap(s)) + Prefix(s, i)
    ensures OwnerOfTick(s, u) == i
  {
    PrefixMonotone(s, i + 1, |s|);
    Decompose(q, Prefix(s, i), Lap(s));
    OwnerUnique(s, Prefix(s, i), i);
  }
}
