/**
  What the closed form says about whole runs: each group lives on a timeline of its own,
  siblings share it fairly, and nobody waits longer than one lap.
 */
module Windows {
  import opened RoundRobin
  import opened Tree
  import opened Memory
  import opened Dispatch
  import opened Walk
  import opened Climb
  import opened Timeline

  // ----- counting the ticks of a run

  /** How many of the first k ticks ran a leaf below x. */
  ghost function TicksBelow(s: State, t: Tree, x: Ptr, k: nat): nat
    requires Started(s, t) && k < U32_MAX
  {
    if k == 0 then 0
    else TicksBelow(s, t, x, k - 1) + (if RunsBelow(s, t, x, k - 1) then 1 else 0)
  }

  ghost predicate RunsBelow(s: State, t: Tree, x: Ptr, k: nat)
    requires Started(s, t) && k < U32_MAX
  {
    RunKeepsTime(s, t, k);
    Above(t, x, Ticks(s, k).current)
  }

  lemma RunsBelowServed(s: State, t: Tree, x: Ptr, k: nat)
    requires Started(s, t) && k < U32_MAX && x in t.nodes
    ensures RunsBelow(s, t, x, k) <==> Serves(t, x, k)
  {
    hide Count, Turn, Ticks;
    RunKeepsTime(s, t, k);
    var cur := Ticks(s, k).current;
    if Serves(t, x, k) {
      OnlyPathServed(t, x, cur, k);
    }
    ServedPath(t, x, cur, k);
  }

  lemma {:induction false} TicksBelowIsCount(s: State, t: Tree, x: Ptr, k: nat)
    requires Started(s, t) && k < U32_MAX && x in t.nodes
    ensures TicksBelow(s, t, x, k) == Count(t, x, k)
  {
    hide Serves, Count, RunsBelow;
    if k == 0 {
      NothingCounted(t, x);
    } else {
      TicksBelowIsCount(s, t, x, k - 1);
      RunsBelowServed(s, t, x, k - 1);
      CountStep(t, x, k - 1);
    }
  }

  // ----- fairness

  /** After every tick, the CPU time of two siblings differs from the ratio of their slices
      by less than one slice of each. */
  lemma SiblingsAreFair(s: State, t: Tree, x: Ptr, y: Ptr, k: nat)
    requires Started(s, t) && k < U32_MAX
    requires x in t.nodes && y in t.nodes && x != t.root && y != t.root
    requires ParentOf(t, x) == ParentOf(t, y)
    ensures var sx, sy := t.nodes[x].slice, t.nodes[y].slice;
            -(sx * sy) <= TicksBelow(s, t, x, k) * sy - TicksBelow(s, t, y, k) * sx <= sx * sy
  {
    hide Share;
    var g := ParentOf(t, x);
    TicksBelowIsCount(s, t, x, k);
    TicksBelowIsCount(s, t, y, k);
    FairShares(Slices(t, g), t.nodes[x].pos, t.nodes[y].pos, Count(t, g, k));
  }

  lemma {:induction false} ShareMonotone(s: seq<nat>, i: nat, a: nat, b: nat)
    requires Positive(s) && i < |s| && a <= b
    ensures Share(s, i, a) <= Share(s, i, b)
    decreases b
  {
    hide Share;
    if a < b {
      ShareMonotone(s, i, a, b - 1);
      ShareStep(s, i, b - 1);
    }
  }

  lemma CountIsShare(t: Tree, x: Ptr, k: nat)
    requires Valid(t) && Staffed(t) && x in t.nodes && x != t.root
    ensures Count(t, x, k) == Share(Slices(t, ParentOf(t, x)), t.nodes[x].pos, Count(t, ParentOf(t, x), k))
  {
  }

  /** No starvation: once a group has run for longer than its other children's slices put
      together, every child has run. */
  lemma NobodyStarves(s: State, t: Tree, x: Ptr, k1: nat, k2: nat)
    requires Started(s, t) && k1 <= k2 < U32_MAX && x in t.nodes && x != t.root
    requires TicksBelow(s, t, ParentOf(t, x), k2) - TicksBelow(s, t, ParentOf(t, x), k1)
             > Lap(Slices(t, ParentOf(t, x))) - t.nodes[x].slice
    ensures TicksBelow(s, t, x, k2) > TicksBelow(s, t, x, k1)
  {
    hide Share, OwnerOfTick, Count, TicksBelow, Serves;
    var g, i := ParentOf(t, x), t.nodes[x].pos;
    TicksBelowIsCount(s, t, x, k1);
    TicksBelowIsCount(s, t, x, k2);
    TicksBelowIsCount(s, t, g, k1);
    TicksBelowIsCount(s, t, g, k2);
    var ring := Slices(t, g);
    CountIsShare(t, x, k1);
    CountIsShare(t, x, k2);
    var u := WaitsAtMostALap(ring, i, Count(t, g, k1));
    ShareMonotone(ring, i, Count(t, g, k1), u);
    ShareStep(ring, i, u);
    ShareMonotone(ring, i, u + 1, Count(t, g, k2));
  }

  // ----- one continuous timeline

  /** The leaves that ran below g during the first k ticks, in order, with everything that
      ran elsewhere cut out. */
  ghost function GroupTrace(s: State, t: Tree, g: Ptr, k: nat): seq<Ptr>
    requires Started(s, t) && k < U32_MAX
  {
    if k == 0 then []
    else GroupTrace(s, t, g, k - 1)
         + (if RunsBelow(s, t, g, k - 1) then [Ticks(s, k - 1).current] else [])
  }

  /** The trace of a group is its own closed form, read from its own tick zero: the gaps
      in which the group was not scheduled do not exist. */
  lemma {:induction false} TraceIsTimeline(s: State, t: Tree, g: Ptr, k: nat)
    requires Started(s, t) && k < U32_MAX && g in t.nodes
    ensures |GroupTrace(s, t, g, k)| == Count(t, g, k)
    ensures forall n | 0 <= n < Count(t, g, k) :: GroupTrace(s, t, g, k)[n] == LeafAt(t, g, n)
  {
    hide Serves, Count, RunsBelow, LeafAt, Ticks;
    if k == 0 {
      NothingCounted(t, g);
    } else {
      TraceIsTimeline(s, t, g, k - 1);
      RunsBelowServed(s, t, g, k - 1);
      CountStep(t, g, k - 1);
      if Serves(t, g, k - 1) {
        RunIsRoundRobin(s, t, k - 1);
        ServedLeaf(t, g, k - 1);
      }
    }
  }

  /** Two trees agree on everything strictly below g; the nodes of that subtree are d. */
  ghost predicate SameBelow(t1: Tree, t2: Tree, g: Ptr, d: set<Ptr>) {
    && g in d
    && (forall x {:trigger x in d} | x in d ::
          && x in t1.nodes && x in t2.nodes
          && (x in t1.kids <==> x in t2.kids)
          && (x != g ==> t1.nodes[x].slice == t2.nodes[x].slice)
          && (x in t1.kids ==> t1.kids[x] == t2.kids[x])
          && (x in t1.kids ==> forall i | 0 <= i < |t1.kids[x]| :: t1.kids[x][i] in d && t1.kids[x][i] != g))
  }

  lemma {:induction false} SameLeafAt(t1: Tree, t2: Tree, g: Ptr, d: set<Ptr>, x: Ptr, n: nat)
    requires Valid(t1) && Staffed(t1) && Valid(t2) && Staffed(t2) && SameBelow(t1, t2, g, d)
    requires x in d && x in t1.nodes && x in t2.nodes
    ensures LeafAt(t1, x, n) == LeafAt(t2, x, n)
    decreases t1.depth - t1.nodes[x].level
  {
    hide Share, OwnerOfTick;
    if x in t1.kids {
      assert Slices(t1, x) == Slices(t2, x);
      var i := OwnerOfTick(Slices(t1, x), n);
      var c := t1.kids[x][i];
      assert KidOk(t1, x, i) && NodeOk(t1, c);
      SameLeafAt(t1, t2, g, d, c, Share(Slices(t1, x), i, n));
    }
  }

  /** Window independence: whatever quantum the group itself has, and whatever runs beside
      it or around it, what runs inside it is the same sequence.  Two runs can differ only
      in how far along it they have come. */
  lemma WindowIndependence(s1: State, t1: Tree, k1: nat, s2: State, t2: Tree, k2: nat, g: Ptr, d: set<Ptr>)
    requires Started(s1, t1) && k1 < U32_MAX && Started(s2, t2) && k2 < U32_MAX
    requires SameBelow(t1, t2, g, d)
    requires g in t1.nodes && g in t2.nodes && Count(t1, g, k1) <= Count(t2, g, k2)
    ensures GroupTrace(s1, t1, g, k1) <= GroupTrace(s2, t2, g, k2)
  {
    hide GroupTrace, Count, LeafAt;
    TraceIsTimeline(s1, t1, g, k1);
    TraceIsTimeline(s2, t2, g, k2);
    var a, b := GroupTrace(s1, t1, g, k1), GroupTrace(s2, t2, g, k2);
    forall n | 0 <= n < |a| ensures a[n] == b[n] {
      SameLeafAt(t1, t2, g, d, g, n);
    }
  }

  // ----- depth one

  lemma {:induction false} UnitPrefix(s: seq<nat>, i: nat)
    requires i <= |s| && forall j | 0 <= j < |s| :: s[j] == 1
    ensures Prefix(s, i) == i
  {
    if i > 0 {
      UnitPrefix(s, i - 1);
    }
  }

  /** Without groups and with one-tick slices this is the plain ring: tick k runs task k
      modulo the number of tasks. */
  lemma DepthOneIsTheRing(s: State, t: Tree, k: nat)
    requires Started(s, t) && k < U32_MAX
    requires t.kids.Keys == {t.root}
    requires forall x | x in t.nodes && x != t.root :: t.nodes[x].slice == 1
    ensures |t.kids[t.root]| > 0
    ensures Ticks(s, k).current == t.kids[t.root][k % |t.kids[t.root]|]
  {
    hide Ticks, Owner;
    var ring, slices := t.kids[t.root], Slices(t, t.root);
    forall i | 0 <= i < |slices| ensures slices[i] == 1 {
      assert KidOk(t, t.root, i);
    }
    RunIsRoundRobin(s, t, k);
    UnitPrefix(slices, |slices|);
    DivisionIsDivision(k, |ring|);
    var o := k % |ring|;
    UnitPrefix(slices, o);
    UnitPrefix(slices, o + 1);
    OwnerUnique(slices, o, o);
    assert KidOk(t, t.root, o) && NodeOk(t, t.root);
    LeafOfLeaf(t, ring[o], Share(slices, o, k));
  }

  // ----- starting with no current task

  /** The same fresh tree, before any task has been put on the CPU. */
  ghost predicate FreshIdle(s: State, t: Tree) {
    s.current == NULL && Valid(t) && Staffed(t) && Fresh(s.(current := LeafAt(t, t.root, 0)), t)
  }

  /** The first tick of an idle kernel spends nothing and dispatches the first leaf. */
  lemma IdleStart(s: State, t: Tree)
    requires FreshIdle(s, t)
    ensures var (s', leaf) := Tick(s);
            Started(s', t) && leaf == s'.current == LeafAt(t, t.root, 0)
  {
    hide Used, Turn, Count, Serves, LeafAt, Sweep, HandOver, DescendAndArm, ResumeChild;
    var s0 := s.(current := LeafAt(t, t.root, 0));
    var m, limit := s.mem, WalkLimit(s.nodes);
    FreshAtTick(s0, t);
    NobodyExpires(m, Visited(s.(ticks := s.ticks + 1)), s.ticks + 1);
    assert OnTick(s) == s.(ticks := s.ticks + 1);
    IdlePick(m, t, limit);
    var (m1, leaf) := PickNextLeaf(m, t.root, NULL, limit);
    assert Holds(m1, t, leaf) && After(t, leaf) != NULL;
    IdleHandOver(m1, t, leaf);
    ServedLeaf(t, leaf, 0);
    assert LeafAt(t, leaf, Count(t, leaf, 0)) == leaf by { LeafOfLeaf(t, leaf, Count(t, leaf, 0)); }
  }

  lemma IdleRunIsRoundRobin(s: State, t: Tree, k: nat)
    requires FreshIdle(s, t) && k < U32_MAX
    ensures Ticks(s, k + 1).current == LeafAt(t, t.root, k)
  {
    hide LeafAt, Tick, Fresh;
    IdleStart(s, t);
    RunIsRoundRobin(Tick(s).0, t, k);
    TickFirst(s, k);
  }

  lemma {:induction false} TickFirst(s: State, k: nat)
    ensures Ticks(s, k + 1) == Ticks(Tick(s).0, k)
  {
    hide Tick;
    if k > 0 {
      TickFirst(s, k - 1);
    }
  }

  lemma LeafOfLeaf(t: Tree, x: Ptr, n: nat)
    requires Valid(t) && Staffed(t) && IsLeaf(t, x)
    ensures LeafAt(t, x, n) == x
  {
  }

  lemma IdlePick(m: Mem, t: Tree, limit: nat)
    requires OnTime(m, t, 0) && t.depth <= limit
    ensures var (m1, leaf) := PickNextLeaf(m, t.root, NULL, limit);
            OnTime(m1, t, 0) && IsLeaf(t, leaf) && Serves(t, leaf, 0)
  {
    hide Used, Turn, Count, Serves, QuantumLeft;
    BusyRolls(m, t);
    assert NodeOk(t, t.root) && CursorOnTurn(m, t, t.root, 0) && Holds(m, t, t.root);
    assert Serves(t, t.root, 0) by { RootServes(t, 0); }
    TurnIsServed(t, t.root, 0);
    var c := t.kids[t.root][Turn(t, t.root, 0)];
    ResumeIsCursor(m, t, t.root, c);
    assert NodeOk(t, c);
    forall g | g in t.kids && ServedFrom(t, g, t.nodes[c].level, 0)
      ensures Cursor(m, g) == t.kids[g][Turn(t, g, 0)]
    {
      assert CursorOnTurn(m, t, g, 0);
    }
    DescendFollowsTurn(m, t, c, 0, limit);
    var (m1, leaf) := DescendAndArm(m, c, limit);
    ArmingServedIsIdle(m, m1, t, t.nodes[c].level);
  }

  lemma ArmingServedIsIdle(m: Mem, m1: Mem, t: Tree, low: nat)
    requires OnTime(m, t, 0) && ArmedFrom(m, m1, t, low, 0)
    ensures m1 == m
  {
    hide Used, Turn, Count, Serves, QuantumLeft;
    forall x | x in m ensures m1[x] == m[x] {
      if ServedFrom(t, x, low, 0) {
        assert Remaining(m, x) > 0;
      }
    }
  }

  lemma IdleHandOver(m: Mem, t: Tree, next: Ptr)
    requires OnTime(m, t, 0) && IsLeaf(t, next) && next in m
    ensures OnTime(HandOver(m, NULL, next), t, 0)
  {
    HandOverKeepsTime(m, t, next, next, 0);
    assert HandOver(m, NULL, next) == HandOver(m, next, next);
  }
}
