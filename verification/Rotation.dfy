/**
  Exactly how long the others take in a flat ring where everybody can run, and what brings
  the root's cursor and the current task together again after they came apart.
 */
module Rotation {
  import opened RoundRobin
  import opened Tree
  import opened Memory
  import opened Dispatch
  import opened Walk
  import opened Rings
  import opened Lifecycle
  import opened Growth
  import opened Timeline
  import opened Invariant
  import opened Books
  import opened Runs
  import opened Ledger
  import opened Waiting
  import Boot
  import Deadlines

  // ----- the exact wait

  /** A flat ring in which everybody can run. */
  ghost predicate Bustling(k: State, t: Tree, dead: seq<Ptr>) {
    && OneRing(k, t, dead)
    && (forall z | IsLeaf(t, z) :: Runnable(k.mem, z))
    && (forall z | z in k.mem :: !k.mem[z].state.Blocked?)
  }

  /** The turn y gets when the rotation reaches it, while cur spends its own first: what it
      has left of an earlier turn, or a full slice. */
  ghost function Due(m: Mem, t: Tree, cur: Ptr, y: Ptr): nat
    requires y in t.nodes
  {
    if y == cur || Remaining(m, y) == 0 then t.nodes[y].slice else Remaining(m, y)
  }

  /** The turns of the n tasks after y. */
  ghost function DueAfter(m: Mem, t: Tree, cur: Ptr, y: Ptr, n: nat): nat
    requires Valid(t) && y in t.nodes && y != t.root
    decreases n
  {
    if n == 0 then 0 else Due(m, t, cur, After(t, y)) + DueAfter(m, t, cur, After(t, y), n - 1)
  }

  /** The number of ticks until x is current. */
  ghost function ExactWait(k: State, t: Tree, dead: seq<Ptr>, x: Ptr): nat
    requires OneRing(k, t, dead) && IsLeaf(t, x)
  {
    CursorIsLeaf(k.mem, t, x);
    var c := Cursor(k.mem, t.root);
    FlatLeaves(t, c, x);
    if k.current == x then 0
    else if k.current != NULL then Rest(k) + DueAfter(k.mem, t, k.current, c, Gap(t, c, x) - 1)
    else if c == x then 1
    else 1 + Due(k.mem, t, NULL, c) + DueAfter(k.mem, t, c, c, Gap(t, c, x) - 1)
  }

  /** Turns depend only on the quanta met on the way. */
  lemma {:induction false} DueFrame(m: Mem, m': Mem, t: Tree, cur: Ptr, cur': Ptr, y: Ptr, n: nat)
    requires Valid(t) && y in t.nodes && y != t.root
    requires forall e | 1 <= e <= n :: Due(m', t, cur', Around(t, y, e)) == Due(m, t, cur, Around(t, y, e))
    ensures DueAfter(m', t, cur', y, n) == DueAfter(m, t, cur, y, n)
    decreases n
  {
    hide After, Due;
    if n > 0 {
      AroundShift(t, y, 0);
      AroundNone(t, After(t, y));
      forall e | 1 <= e <= n - 1
        ensures Due(m', t, cur', Around(t, After(t, y), e)) == Due(m, t, cur, Around(t, After(t, y), e))
      {
        AroundShift(t, y, e);
      }
      DueFrame(m, m', t, cur, cur', After(t, y), n - 1);
    }
  }

  /** Short of a lap nobody is met twice. */
  lemma NotAgain(t: Tree, y: Ptr, n: nat)
    requires Valid(t) && y in t.nodes && y != t.root && n < RingSize(t, y)
    ensures forall e | 1 <= e <= n :: Around(t, y, e) != y
  {
    forall e | 1 <= e <= n ensures Around(t, y, e) != y {
      FullLap(t, y, e);
    }
  }

  lemma BustlingMid(k: State, t: Tree, dead: seq<Ptr>)
    requires Bustling(k, t, dead) && k.ticks + 1 < U32_MAX
    ensures Bustling(OnTick(k), t, dead) && AfterDrain(k, OnTick(k), t, dead, 1)
    ensures forall z | z != k.current && z != t.root :: Remaining(OnTick(k).mem, z) == Remaining(k.mem, z)
  {
    hide WellFormed, OnTick, OneRing, AfterDrain;
    assert AfterDrain(k, OnTick(k), t, dead, 1) by { TickDrains(k, t, dead); }
    assert OneRing(OnTick(k), t, dead) by { DrainedRing(k, OnTick(k), t, dead, 1); }
    forall z | IsLeaf(t, z) ensures Runnable(OnTick(k).mem, z) {
      OnTickLets(k, z);
    }
    TickBlocksNobody(k, t, dead);
    TickElsewhere(k, t, dead);
  }

  lemma DrainedRing(k: State, mid: State, t: Tree, dead: seq<Ptr>, spent: nat)
    requires AfterDrain(k, mid, t, dead, spent)
    ensures OneRing(mid, t, dead)
  {
  }

  lemma RingStands(k: State, t: Tree, dead: seq<Ptr>)
    requires OneRing(k, t, dead)
    ensures WellFormed(k, t, dead) && Flat(t) && Represents(k.mem, t) && t.depth <= k.nodes && k.root == t.root
    ensures k.current == NULL || IsLeaf(t, k.current)
  {
    Structure(k, t, dead);
  }

  lemma TickBlocksNobody(k: State, t: Tree, dead: seq<Ptr>)
    requires OneRing(k, t, dead) && forall z | z in k.mem :: !k.mem[z].state.Blocked?
    ensures forall z | z in OnTick(k).mem :: !OnTick(k).mem[z].state.Blocked?
  {
    hide Sweep, WellFormed, DrainPath;
    RingStands(k, t, dead);
    var m1 := DrainPath(k.mem, k.current, WalkLimit(k.nodes));
    DrainKept(k.mem, t, k.current, WalkLimit(k.nodes));
    var k1 := k.(ticks := k.ticks + 1, mem := m1);
    DrainBlocksNobody(k.mem, k.current, WalkLimit(k.nodes));
    NobodyExpires(m1, Visited(k1), k1.ticks);
  }

  lemma {:induction false} DrainBlocksNobody(m: Mem, n: Ptr, budget: nat)
    requires forall z | z in m :: !m[z].state.Blocked?
    ensures forall z | z in DrainPath(m, n, budget) :: !DrainPath(m, n, budget)[z].state.Blocked?
    decreases budget
  {
    if n in m && budget > 0 {
      DrainBlocksNobody(SetRemaining(m, n, if m[n].remaining == 0 then 0 else m[n].remaining - 1), m[n].parent, budget - 1);
    }
  }

  lemma TickElsewhere(k: State, t: Tree, dead: seq<Ptr>)
    requires OneRing(k, t, dead)
    ensures forall z | z != k.current && z != t.root :: Remaining(OnTick(k).mem, z) == Remaining(k.mem, z)
  {
    hide OnTick, WellFormed;
    RingStands(k, t, dead);
    if k.current == NULL {
      TickIdles(k, t, dead);
    } else {
      TickSpends(k, t);
      FlatLeaves(t, k.current, k.current);
      OnTickKept(k, t, dead);
      forall z | z != k.current && z != t.root ensures Remaining(OnTick(k).mem, z) == Remaining(k.mem, z) {
        if z in k.mem {
          assert !Above(t, z, k.current) by {
            assert NodeOk(t, k.current) && ParentOf(t, k.current) == t.root;
          }
        }
      }
    }
  }

  lemma OnTickKept(k: State, t: Tree, dead: seq<Ptr>)
    requires OneRing(k, t, dead)
    ensures OnTick(k).mem.Keys == k.mem.Keys
  {
    hide DrainPath, Sweep, WellFormed;
    RingStands(k, t, dead);
    DrainKept(k.mem, t, k.current, WalkLimit(k.nodes));
    var k1 := k.(ticks := k.ticks + 1, mem := DrainPath(k.mem, k.current, WalkLimit(k.nodes)));
    CallbacksRouse(k1.ticks, 0, 0);
    SweepKeepsQuanta(k1.mem, Visited(k1), ExpireOne(k1.ticks));
  }

  lemma SwitchBustles(mid: State, t: Tree, dead: seq<Ptr>)
    requires Bustling(mid, t, dead) && OneRing(ScheduleNext(mid).0, t, dead)
    ensures Bustling(ScheduleNext(mid).0, t, dead)
  {
    hide WellFormed, ScheduleNext, OneRing;
    assert WellFormed(mid, t, dead) && WellFormed(ScheduleNext(mid).0, t, dead) by {
      RingStands(mid, t, dead);
      RingStands(ScheduleNext(mid).0, t, dead);
    }
    var k' := ScheduleNext(mid).0;
    SwitchKeys(mid, t, dead);
    forall z | z in k'.mem ensures !k'.mem[z].state.Blocked? {
      Deadlines.SwitchSleeps(mid, t, dead, z);
    }
    forall z | IsLeaf(t, z) ensures Runnable(k'.mem, z) {
      LivingLeaf(k', t, dead, z);
    }
  }

  lemma LivingLeaf(k: State, t: Tree, dead: seq<Ptr>, z: Ptr)
    requires WellFormed(k, t, dead) && IsLeaf(t, z)
    ensures z in k.mem && !k.mem[z].state.Dead?
  {
    assert Holds(k.mem, t, z);
  }

  lemma SwitchKeys(mid: State, t: Tree, dead: seq<Ptr>)
    requires WellFormed(mid, t, dead)
    ensures ScheduleNext(mid).0.mem.Keys == mid.mem.Keys
  {
    hide ScheduleNext, WellFormed;
    ScheduleArms(mid, t, dead);
  }

  /** One tick brings x nearer by exactly one. */
  lemma ExactTick(k: State, t: Tree, dead: seq<Ptr>, x: Ptr)
    requires Bustling(k, t, dead) && IsLeaf(t, x) && k.current != x && k.ticks + 1 < U32_MAX
    ensures var k' := Tick(k).0;
            && Bustling(k', t, dead) && k'.ticks == k.ticks + 1
            && ExactWait(k', t, dead, x) + 1 == ExactWait(k, t, dead, x)
  {
    hide WellFormed, OnTick, ScheduleNext, AfterDrain, OneRing, ExactWait;
    var mid := OnTick(k);
    BustlingMid(k, t, dead);
    TickKeepsCurrent(k);
    if k.current == NULL {
      ExactEntry(k, mid, t, dead, x);
    } else if Remaining(mid.mem, k.current) > 0 {
      ExactStay(k, mid, t, dead, x);
    } else {
      ExactMove(k, mid, t, dead, x);
    }
    SwitchBustles(mid, t, dead);
  }

  lemma ExactStay(k: State, mid: State, t: Tree, dead: seq<Ptr>, x: Ptr)
    requires OneRing(k, t, dead) && Bustling(mid, t, dead) && AfterDrain(k, mid, t, dead, 1)
    requires forall z | z != k.current && z != t.root :: Remaining(mid.mem, z) == Remaining(k.mem, z)
    requires IsLeaf(t, x) && k.current != x && k.current != NULL && Remaining(mid.mem, k.current) > 0
    ensures var k' := ScheduleNext(mid).0;
            && OneRing(k', t, dead) && k'.ticks == mid.ticks
            && ExactWait(k', t, dead, x) + 1 == ExactWait(k, t, dead, x)
  {
    hide WellFormed, ScheduleNext, DueAfter, Around;
    RingStands(k, t, dead);
    StayWaits(k, mid, t, dead, x, 1);
    ScheduleArms(mid, t, dead);
    var k', c := ScheduleNext(mid).0, Cursor(k.mem, t.root);
    CursorIsLeaf(k.mem, t, x);
    FlatLeaves(t, c, x);
    forall e | 1 <= e <= Gap(t, c, x) - 1
      ensures Due(k'.mem, t, k.current, Around(t, c, e)) == Due(k.mem, t, k.current, Around(t, c, e))
    {
    }
    DueFrame(k.mem, k'.mem, t, k.current, k.current, c, Gap(t, c, x) - 1);
  }

  lemma ExactMove(k: State, mid: State, t: Tree, dead: seq<Ptr>, x: Ptr)
    requires OneRing(k, t, dead) && Bustling(mid, t, dead) && AfterDrain(k, mid, t, dead, 1)
    requires forall z | z != k.current && z != t.root :: Remaining(mid.mem, z) == Remaining(k.mem, z)
    requires IsLeaf(t, x) && k.current != x && k.current != NULL && Remaining(mid.mem, k.current) == 0
    ensures var k' := ScheduleNext(mid).0;
            && OneRing(k', t, dead) && k'.ticks == mid.ticks
            && ExactWait(k', t, dead, x) + 1 == ExactWait(k, t, dead, x)
  {
    hide WellFormed, ScheduleNext, Around, Gap, RingSize;
    RingStands(k, t, dead);
    RingStands(mid, t, dead);
    var c, y, e := MoveFirst(mid, t, dead, x);
    var k' := ScheduleNext(mid).0;
    FlatLeaves(t, c, x);
    FlatLeaves(t, y, x);
    var n := Gap(t, c, x) - 1;
    if y == x {
      assert n == 0 by { GapToNext(t, c, x); }
    } else {
      GapAfter(t, c, x);
      NotAgain(t, y, n - 1);
      forall e | 1 <= e <= n - 1
        ensures Due(k'.mem, t, y, Around(t, y, e)) == Due(k.mem, t, k.current, Around(t, y, e))
      {
      }
      DueFrame(k.mem, k'.mem, t, k.current, y, y, n - 1);
    }
  }

  lemma GapToNext(t: Tree, c: Ptr, x: Ptr)
    requires Valid(t) && c in t.nodes && x in t.nodes && c != t.root && x != t.root
    requires ParentOf(t, c) == ParentOf(t, x) && After(t, c) == x
    ensures Gap(t, c, x) == 1
  {
    AroundPos(t, c, 1);
    AroundNone(t, c);
    assert Around(t, c, 1) == After(t, Around(t, c, 0));
  }

  lemma GapAfter(t: Tree, c: Ptr, x: Ptr)
    requires Valid(t) && c in t.nodes && x in t.nodes && c != t.root && x != t.root
    requires ParentOf(t, c) == ParentOf(t, x) && After(t, c) != x
    ensures After(t, c) != t.root && ParentOf(t, After(t, c)) == ParentOf(t, x)
    ensures Gap(t, c, x) >= 2 && Gap(t, After(t, c), x) == Gap(t, c, x) - 1
    ensures Gap(t, c, x) - 2 < RingSize(t, After(t, c))
  {
    GapReaches(t, c, x);
    AroundNone(t, c);
    assert Around(t, c, 1) == After(t, Around(t, c, 0));
    assert Gap(t, c, x) != 1;
    GapShrinks(t, c, x, 1);
  }

  /** Everybody can run, so the turn passes to the very next. */
  lemma MoveFirst(mid: State, t: Tree, dead: seq<Ptr>, x: Ptr) returns (c: Ptr, y: Ptr, e: nat)
    requires Bustling(mid, t, dead) && Remaining(mid.mem, t.root) > 0 && mid.current != NULL
    requires IsLeaf(t, x) && Remaining(mid.mem, mid.current) == 0
    ensures c == Cursor(mid.mem, t.root) && IsLeaf(t, c) && c != t.root && y == After(t, c) && IsLeaf(t, y)
    ensures var k' := ScheduleNext(mid).0;
            && InPlace(k', t, dead) && k'.current == y
            && Remaining(k'.mem, y) == (if Remaining(mid.mem, y) == 0 then t.nodes[y].slice else Remaining(mid.mem, y))
            && (forall z | z != y :: Remaining(k'.mem, z) == Remaining(mid.mem, z))
            && k'.ticks == mid.ticks
  {
    hide WellFormed, ScheduleNext;
    RingStands(mid, t, dead);
    CursorIsLeaf(mid.mem, t, x);
    c := Cursor(mid.mem, t.root);
    FlatLeaves(t, c, x);
    y := After(t, c);
    assert IsLeaf(t, y);
    var y1;
    y1, e := MoveOn(mid, t, dead, y);
    GapToNext(t, c, y);
    AroundNone(t, c);
    assert Around(t, c, 1) == After(t, Around(t, c, 0));
  }

  lemma ExactEntry(k: State, mid: State, t: Tree, dead: seq<Ptr>, x: Ptr)
    requires OneRing(k, t, dead) && Bustling(mid, t, dead) && AfterDrain(k, mid, t, dead, 1)
    requires forall z | z != NULL && z != t.root :: Remaining(mid.mem, z) == Remaining(k.mem, z)
    requires IsLeaf(t, x) && k.current == NULL
    ensures var k' := ScheduleNext(mid).0;
            && OneRing(k', t, dead) && k'.ticks == mid.ticks
            && ExactWait(k', t, dead, x) + 1 == ExactWait(k, t, dead, x)
  {
    hide WellFormed, ScheduleNext, PickNextLeaf, Around, Gap, RingSize;
    RingStands(k, t, dead);
    RingStands(mid, t, dead);
    CursorIsLeaf(k.mem, t, x);
    var c := Cursor(k.mem, t.root);
    FlatLeaves(t, c, x);
    var y, e := FlatEntry(mid.mem, t, x, WalkLimit(mid.nodes));
    AroundNone(t, c);
    assert y == c && Holds(mid.mem, t, c) && NodeOk(t, c);
    SwitchTo(mid, t, dead, ArmIfNeeded(mid.mem, c), c);
    var k', n := ScheduleNext(mid).0, Gap(t, c, x) - 1;
    if c != x {
      assert n < RingSize(t, c) by { GapWithin(t, c, x); }
      NotAgain(t, c, n);
      forall e | 1 <= e <= n ensures Due(k'.mem, t, c, Around(t, c, e)) == Due(k.mem, t, c, Around(t, c, e)) {
      }
      DueFrame(k.mem, k'.mem, t, c, c, c, n);
    }
  }

  lemma GapWithin(t: Tree, c: Ptr, x: Ptr)
    requires Valid(t) && c in t.nodes && x in t.nodes && c != t.root && x != t.root
    requires ParentOf(t, c) == ParentOf(t, x)
    ensures Gap(t, c, x) - 1 < RingSize(t, c)
  {
  }

  lemma ZeroIsThere(k: State, t: Tree, dead: seq<Ptr>, x: Ptr)
    requires OneRing(k, t, dead) && IsLeaf(t, x)
    ensures ExactWait(k, t, dead, x) == 0 <==> k.current == x
  {
  }

  lemma {:induction false} ExactRun(k: State, t: Tree, dead: seq<Ptr>, x: Ptr, n: nat)
    requires Bustling(k, t, dead) && IsLeaf(t, x) && n <= ExactWait(k, t, dead, x) && k.ticks + n < U32_MAX
    ensures Bustling(Ticks(k, n), t, dead) && Ticks(k, n).ticks == k.ticks + n
    ensures ExactWait(Ticks(k, n), t, dead, x) + n == ExactWait(k, t, dead, x)
  {
    hide ExactWait, OneRing, Tick;
    if n > 0 {
      ExactRun(k, t, dead, x, n - 1);
      ZeroIsThere(Ticks(k, n - 1), t, dead, x);
      ExactTick(Ticks(k, n - 1), t, dead, x);
    }
  }

  /** While everybody can run, x is current within b ticks exactly when the turns due before
      it fit into b: it becomes current for the first time at tick ExactWait. */
  lemma WaitsExactly(k: State, t: Tree, dead: seq<Ptr>, x: Ptr, b: nat)
    requires Bustling(k, t, dead) && IsLeaf(t, x) && k.ticks + b < U32_MAX
    ensures (exists n: nat | n <= b :: Ticks(k, n).current == x) <==> ExactWait(k, t, dead, x) <= b
  {
    hide ExactWait, OneRing, Ticks;
    var w := ExactWait(k, t, dead, x);
    if w <= b {
      ExactRun(k, t, dead, x, w);
      ZeroIsThere(Ticks(k, w), t, dead, x);
    } else {
      forall n: nat | n <= b ensures Ticks(k, n).current != x {
        ExactRun(k, t, dead, x, n);
        ZeroIsThere(Ticks(k, n), t, dead, x);
      }
    }
  }

  // ----- when the others' slices are enough

  /** Nobody but the current task is in the middle of a turn. */
  ghost predicate Unbroken(k: State, t: Tree) {
    forall z {:trigger Remaining(k.mem, z)} | IsLeaf(t, z) && z != k.current ::
      Remaining(k.mem, z) == 0 || Remaining(k.mem, z) == t.nodes[z].slice
  }

  lemma {:induction false} UnbrokenTurns(k: State, t: Tree, dead: seq<Ptr>, cur: Ptr, y: Ptr, n: nat)
    requires OneRing(k, t, dead) && Unbroken(k, t) && IsLeaf(t, y) && y != t.root
    requires k.current == NULL || cur == k.current
    ensures DueAfter(k.mem, t, cur, y, n) == Ahead(t, y, n)
    decreases n
  {
    hide WellFormed;
    RingStands(k, t, dead);
    if n > 0 {
      var z := After(t, y);
      assert IsLeaf(t, z);
      assert z != k.current ==> Remaining(k.mem, z) == 0 || Remaining(k.mem, z) == t.nodes[z].slice;
      UnbrokenTurns(k, t, dead, cur, z, n - 1);
    }
  }

  /** "Number of tasks less one, times the slice" as a bound on the wait for x, exactly: while
      everybody can run, x is current within the slices of the others if and only if the
      root's cursor is not at x and the current task has no more left than the slices on the
      arc after x up to and including the cursor. */
  lemma OtherSlicesAreEnoughIff(k: State, t: Tree, dead: seq<Ptr>, x: Ptr)
    requires Bustling(k, t, dead) && Unbroken(k, t) && IsLeaf(t, x)
    requires k.current != NULL && k.current != x && x != t.root
    requires k.ticks + OtherSlices(t, x) < U32_MAX
    ensures var c := Cursor(k.mem, t.root);
            && IsLeaf(t, c) && c != t.root && ParentOf(t, c) == ParentOf(t, x)
            && ((exists n: nat | n <= OtherSlices(t, x) :: Ticks(k, n).current == x)
                <==> c != x && Remaining(k.mem, k.current) <= Ahead(t, x, Gap(t, x, c)))
  {
    hide WellFormed, Ticks, DueAfter, OneRing;
    RingStands(k, t, dead);
    CursorIsLeaf(k.mem, t, x);
    var c := Cursor(k.mem, t.root);
    FlatLeaves(t, c, x);
    WaitsExactly(k, t, dead, x, OtherSlices(t, x));
    UnbrokenTurns(k, t, dead, k.current, c, Gap(t, c, x) - 1);
    assert NodeOk(t, c);
    if c != x {
      OthersSplit(t, x, c);
    }
  }

  /** And with no current task: when the cursor is at x and x is not alone, or the cursor is
      elsewhere but not directly behind x. */
  lemma OtherSlicesAreEnoughIdle(k: State, t: Tree, dead: seq<Ptr>, x: Ptr)
    requires Bustling(k, t, dead) && Unbroken(k, t) && IsLeaf(t, x) && k.current == NULL && x != t.root
    requires k.ticks + OtherSlices(t, x) < U32_MAX
    ensures var c := Cursor(k.mem, t.root);
            (exists n: nat | n <= OtherSlices(t, x) :: Ticks(k, n).current == x)
            <==> (if c == x then RingSize(t, x) >= 2 else After(t, x) != c)
  {
    hide WellFormed, Ticks, DueAfter, OneRing, Ahead;
    RingStands(k, t, dead);
    CursorIsLeaf(k.mem, t, x);
    var c := Cursor(k.mem, t.root);
    FlatLeaves(t, c, x);
    WaitsExactly(k, t, dead, x, OtherSlices(t, x));
    UnbrokenTurns(k, t, dead, c, c, Gap(t, c, x) - 1);
    assert NodeOk(t, c);
    assert Remaining(k.mem, c) == 0 || Remaining(k.mem, c) == t.nodes[c].slice;
    if c == x {
      AheadAtLeast(t, x, RingSize(t, x) - 1);
      AheadNone(t, x);
    } else {
      OthersSplit(t, x, c);
      ArcTo(t, x, c);
    }
  }

  /** The arc after x up to and including c, without c. */
  lemma ArcTo(t: Tree, x: Ptr, c: Ptr)
    requires Valid(t) && x in t.nodes && c in t.nodes && x != t.root && c != t.root
    requires ParentOf(t, x) == ParentOf(t, c)
    ensures Ahead(t, x, Gap(t, x, c)) > t.nodes[c].slice <==> After(t, x) != c
  {
    hide Ahead, Gap, After, Around, RingSize;
    if After(t, x) == c {
      GapToNext(t, x, c);
      AheadOne(t, x);
    } else {
      GapAfter(t, x, c);
      ArcEnds(t, x, c);
      AheadAtLeast(t, x, Gap(t, x, c) - 1);
    }
  }

  lemma ArcEnds(t: Tree, x: Ptr, c: Ptr)
    requires Valid(t) && x in t.nodes && c in t.nodes && x != t.root && c != t.root
    requires ParentOf(t, x) == ParentOf(t, c)
    ensures Ahead(t, x, Gap(t, x, c)) == Ahead(t, x, Gap(t, x, c) - 1) + t.nodes[c].slice
  {
    hide Ahead, Gap, After, RingSize;
    var j := Gap(t, x, c);
    GapReaches(t, x, c);
    AheadSplits(t, x, j - 1, j);
    AheadOne(t, Around(t, x, j - 1));
  }

  lemma AheadNone(t: Tree, y: Ptr)
    requires Valid(t) && y in t.nodes && y != t.root
    ensures Ahead(t, y, 0) == 0
  {
  }

  lemma AheadOne(t: Tree, y: Ptr)
    requires Valid(t) && y in t.nodes && y != t.root
    ensures Ahead(t, y, 1) == t.nodes[After(t, y)].slice
  {
    AheadNone(t, After(t, y));
  }

  lemma {:induction false} AheadAtLeast(t: Tree, y: Ptr, n: nat)
    requires Valid(t) && y in t.nodes && y != t.root
    ensures n <= Ahead(t, y, n)
    decreases n
  {
    if n > 0 {
      assert NodeOk(t, After(t, y));
      AheadAtLeast(t, After(t, y), n - 1);
    }
  }

  // ----- back in place

  /** The next time the turn is handed on, the cursor and the current task are together
      again. */
  lemma AdvanceRestoresPlace(k: State, t: Tree, dead: seq<Ptr>, x: Ptr)
    requires OneRing(k, t, dead) && k.ticks < U32_MAX && k.current != NULL
    requires IsLeaf(t, x) && Runnable(k.mem, x)
    requires !(Runnable(k.mem, k.current) && Remaining(k.mem, k.current) > 0)
    ensures InPlace(ScheduleNext(k).0, t, dead)
  {
    hide WellFormed, ScheduleNext;
    var y, e := MoveOn(k, t, dead, x);
  }

  /** Which is after as many ticks as the current task has left, at the latest. */
  lemma TickRestoresPlace(k: State, t: Tree, dead: seq<Ptr>, x: Ptr)
    requires OneRing(k, t, dead) && k.ticks + 1 < U32_MAX && k.current != NULL
    requires IsLeaf(t, x) && Runnable(k.mem, x)
    requires Remaining(k.mem, k.current) <= 1
    ensures InPlace(Tick(k).0, t, dead)
  {
    hide WellFormed, OnTick, ScheduleNext, OneRing;
    TickDrains(k, t, dead);
    DrainedRing(k, OnTick(k), t, dead, 1);
    OnTickLets(k, x);
    TickKeepsCurrent(k);
    AdvanceRestoresPlace(OnTick(k), t, dead, x);
  }

  /** Spawning a task leaves the rotation in place. */
  lemma SpawnKeepsPlace(k: State, t: Tree, dead: seq<Ptr>, quantum: nat, supply: Supply)
    requires InPlace(k, t, dead)
    requires Allowed(k, SpawnStep(k.root, quantum, supply))
    ensures var s := SpawnStep(k.root, quantum, supply);
            InPlace(Apply(k, s), TreeAfter(k, t, dead, s), dead)
  {
    hide WellFormed, Apply, TreeAfter, SpawnTree;
    var s := SpawnStep(k.root, quantum, supply);
    RingStands(k, t, dead);
    StepWellFormed(k, t, dead, s);
    StepPays(k, t, dead, s);
    TreeStands(k, t, dead, s);
    if supply.Granted? {
      SpawnedInPlace(k, t, dead, quantum, supply.slot);
    } else {
      FailedSpawnQuiet(k, s);
      FailedSpawnCursors(k, s);
      RootStands(k, t, dead);
      LivingLeaf(k, t, dead, k.current);
    }
  }

  lemma FailedSpawnCursors(k: State, s: Step)
    requires s.SpawnStep? && !s.supply.Granted?
    ensures Apply(k, s).mem == k.mem
  {
  }

  lemma SpawnedInPlace(k: State, t: Tree, dead: seq<Ptr>, quantum: nat, slot: Ptr)
    requires InPlace(k, t, dead) && Allowed(k, SpawnStep(k.root, quantum, Granted(slot)))
    ensures var s := SpawnStep(k.root, quantum, Granted(slot));
            var k', t' := Apply(k, s), TreeAfter(k, t, dead, s);
            && Flat(t') && t'.root == t.root
            && k'.current == k.current && Cursor(k'.mem, t.root) == k.current
            && Remaining(k'.mem, k.current) == Remaining(k.mem, k.current)
  {
    hide WellFormed, InsertChild, SpawnTree, Linking, NewTree, Spawning;
    RingStands(k, t, dead);
    RootStands(k, t, dead);
    LivingLeaf(k, t, dead, k.current);
    GroupsAreInTree(k, t, dead, k.root);
    var k1 := WithTcb(k, Leaf, k.root, quantum, slot);
    SpawnTreeNodes(k, t, dead, Leaf, k.root, quantum, slot);
    SpawnSetsUp(k, t, dead, Leaf, k.root, quantum, slot);
    SpawnRoot(k, t, dead, quantum, slot);
    InsertLinks(k1, t, k.root, slot, AtLeastOne(quantum), false);
    SpawnQuanta(k, t, dead, Leaf, k.root, quantum, slot);
    InsertChildStill(k1, k.root, slot);
    assert Holds(k.mem, t, t.root) && NodeOk(t, t.root);
    KidIsNotRoot(t, t.root, k.current);
    FlatLeaves(t, k.current, k.current);
    Boot.LinkedStillUnstarted(k1.mem, t, k.root, slot, k.root);
  }

  lemma SpawnRoot(k: State, t: Tree, dead: seq<Ptr>, quantum: nat, slot: Ptr)
    requires WellFormed(k, t, dead) && k.root in t.kids && slot != NULL && slot !in k.mem
    ensures SpawnTree(k, t, dead, Leaf, k.root, quantum, slot).root == t.root
  {
    hide NewTree, WellFormed;
    SpawnSetsUp(k, t, dead, Leaf, k.root, quantum, slot);
    InsertedNodes(WithTcb(k, Leaf, k.root, quantum, slot).mem, t, k.root, slot, AtLeastOne(quantum), false);
  }
}
