/**
  Bounded waiting in a flat ring: whatever the others do, a task that stays runnable gets
  the CPU within a number of ticks that can be read off the state.
 */
module Waiting {
  import opened RoundRobin
  import opened Tree
  import opened Memory
  import opened Dispatch
  import opened Walk
  import opened Climb
  import opened Rings
  import opened Blocking
  import opened Timeline
  import opened Soundness
  import opened Invariant
  import opened Runs
  import opened Ledger

  /** No groups but the root. */
  ghost predicate Flat(t: Tree) {
    t.kids.Keys == {t.root}
  }

  /** Any flat kernel: the current task may be blocked, spent or missing, and the root's
      cursor anywhere in the ring. */
  ghost predicate OneRing(k: State, t: Tree, dead: seq<Ptr>) {
    WellFormed(k, t, dead) && Flat(t) && RootPays(k, t)
  }

  /** With a task on the CPU, its quantum unspent and the rotation at it. */
  ghost predicate InPlace(k: State, t: Tree, dead: seq<Ptr>) {
    && OneRing(k, t, dead)
    && k.current != NULL
    && Cursor(k.mem, t.root) == k.current
    && Remaining(k.mem, k.current) >= 1
  }

  /** The slices of the n tasks after y, added up. */
  ghost function Ahead(t: Tree, y: Ptr, n: nat): nat
    requires Valid(t) && y in t.nodes && y != t.root
    decreases n
  {
    if n == 0 then 0 else t.nodes[After(t, y)].slice + Ahead(t, After(t, y), n - 1)
  }

  /** The slices of everybody in x's ring but x. */
  ghost function OtherSlices(t: Tree, x: Ptr): nat
    requires Valid(t) && x in t.nodes && x != t.root
  {
    Ahead(t, x, RingSize(t, x) - 1)
  }

  lemma AroundNone(t: Tree, y: Ptr)
    requires Valid(t) && y in t.nodes && y != t.root
    ensures Around(t, y, 0) == y
  {
  }

  lemma {:induction false} AheadSplits(t: Tree, y: Ptr, d: nat, n: nat)
    requires Valid(t) && y in t.nodes && y != t.root && d <= n
    ensures Ahead(t, y, n) == Ahead(t, y, d) + Ahead(t, Around(t, y, d), n - d)
    ensures d >= 1 ==> Ahead(t, y, d) >= t.nodes[Around(t, y, d)].slice
    decreases d
  {
    hide After, Around;
    if d >= 1 {
      AheadSplits(t, After(t, y), d - 1, n - 1);
      AroundShift(t, y, d - 1);
    }
    AroundNone(t, y);
    AroundNone(t, After(t, y));
  }

  /** The largest slice among y and the n - 1 tasks after it. */
  ghost function Longest(t: Tree, y: Ptr, n: nat): nat
    requires Valid(t) && y in t.nodes && y != t.root
    decreases n
  {
    if n == 0 then 0
    else
      var rest := Longest(t, After(t, y), n - 1);
      if t.nodes[y].slice > rest then t.nodes[y].slice else rest
  }

  lemma {:induction false} LongestOf(t: Tree, y: Ptr, n: nat, e: nat)
    requires Valid(t) && y in t.nodes && y != t.root && e < n
    ensures t.nodes[Around(t, y, e)].slice <= Longest(t, y, n)
    decreases n
  {
    hide After;
    if e > 0 {
      LongestOf(t, After(t, y), n - 1, e - 1);
      AroundShift(t, y, e - 1);
    } else {
      AroundNone(t, y);
    }
  }

  /** The slices strictly between y and x; everybody but x when y is x. */
  ghost function Between(t: Tree, y: Ptr, x: Ptr): nat
    requires Valid(t) && y in t.nodes && x in t.nodes && y != t.root && x != t.root
    requires ParentOf(t, y) == ParentOf(t, x)
  {
    Ahead(t, y, Gap(t, y, x) - 1)
  }

  /** The ticks the current task can still take; a spent one is noticed by the next. */
  function Rest(k: State): nat {
    if Remaining(k.mem, k.current) == 0 then 1 else Remaining(k.mem, k.current)
  }

  /** How long x can still have to wait: what the current task has left, and a full slice for
      everybody strictly between the root's cursor and x.  With no current task the first
      tick spends nothing, picks somebody at or behind the cursor, and does not move it. */
  ghost function Wait(k: State, t: Tree, dead: seq<Ptr>, x: Ptr): nat
    requires OneRing(k, t, dead) && IsLeaf(t, x)
  {
    CursorIsLeaf(k.mem, t, x);
    var c := Cursor(k.mem, t.root);
    FlatLeaves(t, c, x);
    if k.current == x then 0
    else if k.current != NULL then Rest(k) + Between(t, c, x)
    else if c == x then 1
    else 1 + Longest(t, c, Gap(t, c, x)) + Between(t, c, x)
  }

  lemma CursorIsLeaf(m: Mem, t: Tree, x: Ptr)
    requires Represents(m, t) && Flat(t) && IsLeaf(t, x)
    ensures IsLeaf(t, Cursor(m, t.root))
  {
    FlatLeaves(t, x, x);
    assert NodeOk(t, t.root) && Holds(m, t, t.root) && NodeOk(t, x);
    KidIsNotRoot(t, t.root, Cursor(m, t.root));
  }

  lemma FlatLeaves(t: Tree, x: Ptr, y: Ptr)
    requires Valid(t) && Flat(t) && IsLeaf(t, x) && IsLeaf(t, y)
    ensures x != t.root && y != t.root && ParentOf(t, x) == t.root == ParentOf(t, y)
  {
    assert t.root in t.kids;
    assert NodeOk(t, x) && NodeOk(t, y);
  }

  lemma GapShrinks(t: Tree, y: Ptr, x: Ptr, d: nat)
    requires Valid(t) && x in t.nodes && y in t.nodes && x != t.root && y != t.root
    requires ParentOf(t, x) == ParentOf(t, y) && 1 <= d < Gap(t, y, x)
    ensures Around(t, y, d) != x && Gap(t, Around(t, y, d), x) == Gap(t, y, x) - d
  {
    AroundPos(t, y, d);
  }

  /** All but x, split at another task of the ring. */
  lemma OthersSplit(t: Tree, x: Ptr, c: Ptr)
    requires Valid(t) && x in t.nodes && c in t.nodes && x != t.root && c != t.root
    requires ParentOf(t, x) == ParentOf(t, c) && c != x
    ensures OtherSlices(t, x) == Ahead(t, x, Gap(t, x, c)) + Between(t, c, x)
    ensures Ahead(t, x, Gap(t, x, c)) >= t.nodes[c].slice
  {
    hide Ahead, Around, Gap, Valid;
    var j := Gap(t, x, c);
    GapReaches(t, x, c);
    GapsAround(t, x, c);
    AheadSplits(t, x, j, RingSize(t, x) - 1);
  }

  lemma GapsAround(t: Tree, x: Ptr, c: Ptr)
    requires Valid(t) && x in t.nodes && c in t.nodes && x != t.root && c != t.root
    requires ParentOf(t, x) == ParentOf(t, c) && c != x
    ensures RingSize(t, c) == RingSize(t, x)
    ensures Gap(t, c, x) == RingSize(t, x) - Gap(t, x, c)
  {
    assert KidOk(t, ParentOf(t, x), t.nodes[x].pos) && KidOk(t, ParentOf(t, c), t.nodes[c].pos);
  }

  /** In place nobody waits longer than the slices of the others. */
  lemma InPlaceBound(k: State, t: Tree, dead: seq<Ptr>, x: Ptr)
    requires InPlace(k, t, dead) && IsLeaf(t, x)
    ensures Wait(k, t, dead, x) <= OtherSlices(t, x)
  {
    hide WellFormed, OtherSlices, Between;
    var cur := k.current;
    Structure(k, t, dead);
    FlatLeaves(t, cur, x);
    if cur != x {
      assert Holds(k.mem, t, cur);
      OthersSplit(t, x, cur);
    }
  }

  // ----- the flat dispatch

  lemma FlatDescend(m: Mem, t: Tree, p: Ptr, limit: nat)
    requires Represents(m, t) && Flat(t) && p in t.nodes && p != t.root && Runnable(m, p)
    ensures DescendAndArm(m, p, limit) == (ArmIfNeeded(m, p), p)
  {
    assert Holds(m, t, p);
  }

  /** Scanning a flat ring stops at the first task that can run. */
  lemma {:induction false} FlatScan(m: Mem, t: Tree, cur: Ptr, x: Ptr, d: nat, limit: nat, budget: nat)
    returns (y: Ptr, e: nat)
    requires Represents(m, t) && Flat(t) && IsLeaf(t, cur) && IsLeaf(t, x) && Runnable(m, x)
    requires cur != t.root && x != t.root && ParentOf(t, cur) == t.root == ParentOf(t, x)
    requires 1 <= d <= Gap(t, cur, x) <= d + budget
    ensures d <= e <= Gap(t, cur, x) && y == Around(t, cur, e) && Runnable(m, y)
    ensures y != NULL && t.root in m && t.root in ArmIfNeeded(m, y)
    ensures ScanRing(m, t.root, After(t, cur), Around(t, cur, d), limit, budget)
            == (SetCursor(ArmIfNeeded(m, y), t.root, y), y)
    decreases budget
  {
    hide DescendAndArm, Gap;
    var p := Around(t, cur, d);
    assert Holds(m, t, t.root) && Holds(m, t, p);
    GapReaches(t, cur, x);
    if Runnable(m, p) {
      FlatDescend(m, t, p, limit);
      y, e := p, d;
    } else {
      ScanGoesOn(m, t, cur, d, limit, budget);
      y, e := FlatScan(m, t, cur, x, d + 1, limit, budget - 1);
    }
  }

  lemma ScanGoesOn(m: Mem, t: Tree, cur: Ptr, d: nat, limit: nat, budget: nat)
    requires Represents(m, t) && cur in t.nodes && cur != t.root
    requires 1 <= d < RingSize(t, cur) && budget > 0 && !Runnable(m, Around(t, cur, d))
    ensures ScanRing(m, t.root, After(t, cur), Around(t, cur, d), limit, budget)
            == ScanRing(m, t.root, After(t, cur), Around(t, cur, d + 1), limit, budget - 1)
  {
    var p := Around(t, cur, d);
    NextInMemory(m, t, p);
    NextInMemory(m, t, After(t, p));
    assert Around(t, cur, d + 1) == After(t, p);
    assert Around(t, cur, 1) == After(t, Around(t, cur, 0));
    AroundPos(t, cur, d + 1);
    AroundPos(t, cur, 1);
  }

  /** The turn in a flat ring passes to the first runnable task after the cursor, which is
      no further away than x. */
  lemma FlatAdvance(m: Mem, t: Tree, cur: Ptr, x: Ptr, limit: nat) returns (y: Ptr, e: nat)
    requires Represents(m, t) && Flat(t) && IsLeaf(t, cur) && IsLeaf(t, x) && Runnable(m, x) && limit > 0
    requires Cursor(m, t.root) == cur
    ensures cur != t.root && x != t.root && ParentOf(t, cur) == t.root == ParentOf(t, x)
    ensures 1 <= e <= Gap(t, cur, x) && y == Around(t, cur, e) && y != NULL
    ensures t.root in ArmIfNeeded(m, y)
    ensures AdvanceFrom(m, t.root, limit, limit) == (SetCursor(ArmIfNeeded(m, y), t.root, y), y)
  {
    FlatLeaves(t, cur, x);
    assert Holds(m, t, t.root) && KidOk(t, t.root, 0);
    NextInMemory(m, t, t.kids[t.root][0]);
    ScanStartIsKid(m, t, t.root);
    RingFits(m, t, cur);
    assert Around(t, cur, 1) == After(t, Around(t, cur, 0));
    y, e := FlatScan(m, t, cur, x, 1, limit, |m|);
  }

  /** What a dispatch does in a flat kernel when there is a current task: it stays, or the
      turn passes to somebody behind the root's cursor. */
  lemma FlatPick(m: Mem, t: Tree, cur: Ptr, x: Ptr, limit: nat) returns (y: Ptr, e: nat)
    requires Represents(m, t) && Flat(t) && IsLeaf(t, cur) && IsLeaf(t, x) && Runnable(m, x)
    requires t.depth <= limit && Remaining(m, t.root) > 0
    ensures var c := Cursor(m, t.root);
            IsLeaf(t, c) && c != t.root && x != t.root && ParentOf(t, c) == t.root == ParentOf(t, x)
    ensures Runnable(m, cur) && Remaining(m, cur) > 0 ==>
              e == 0 && y == cur && PickNextLeaf(m, t.root, cur, limit) == (m, cur)
    ensures var c := Cursor(m, t.root);
            !(Runnable(m, cur) && Remaining(m, cur) > 0) ==>
              && 1 <= e <= Gap(t, c, x) && y == Around(t, c, e) && y != NULL
              && t.root in ArmIfNeeded(m, y)
              && PickNextLeaf(m, t.root, cur, limit) == (SetCursor(ArmIfNeeded(m, y), t.root, y), y)
  {
    hide AdvanceFrom, RetireSpent;
    FlatLeaves(t, cur, x);
    CursorIsLeaf(m, t, x);
    FlatLeaves(t, Cursor(m, t.root), x);
    assert NodeOk(t, t.root) && NodeOk(t, cur);
    assert Holds(m, t, t.root) && Holds(m, t, cur);
    FlatPath(m, t, cur, limit);
    if Runnable(m, cur) && Remaining(m, cur) > 0 {
      y, e := cur, 0;
    } else {
      y, e := FlatAdvance(m, t, Cursor(m, t.root), x, limit);
      if Remaining(m, cur) == 0 {
        assert RetireSpent(m, cur, cur, limit + 1) == m by { NothingBetween(m, cur, limit + 1); }
      }
    }
  }

  /** And when there is none: somebody at or behind the cursor, which stays where it is. */
  lemma FlatEntry(m: Mem, t: Tree, x: Ptr, limit: nat) returns (y: Ptr, e: nat)
    requires Represents(m, t) && Flat(t) && IsLeaf(t, x) && Runnable(m, x)
    ensures var c := Cursor(m, t.root);
            IsLeaf(t, c) && c != t.root && x != t.root && ParentOf(t, c) == t.root == ParentOf(t, x)
    ensures var c := Cursor(m, t.root);
            && y == Around(t, c, e) && y != NULL
            && (if c == x then e == 0 else e <= Gap(t, c, x))
            && (Runnable(m, c) ==> e == 0)
            && PickNextLeaf(m, t.root, NULL, limit) == (ArmIfNeeded(m, y), y)
  {
    hide AdvanceFrom, DescendAndArm, ResumeChild;
    CursorIsLeaf(m, t, x);
    var c := Cursor(m, t.root);
    FlatLeaves(t, c, x);
    assert NodeOk(t, t.root) && Holds(m, t, t.root);
    ResumeIsFair(m, t, t.root);
    AroundNone(t, c);
    y := ResumeChild(m, t.root);
    if Runnable(m, c) {
      e := 0;
    } else {
      assert IsKid(t, t.root, x) && c != x;
      KidIsNotRoot(t, t.root, y);
      e := Gap(t, c, y);
      GapReaches(t, c, y);
      GapReaches(t, c, x);
    }
    FlatDescend(m, t, y, limit);
  }

  lemma NothingBetween(m: Mem, n: Ptr, budget: nat)
    ensures RetireSpent(m, n, n, budget) == m
  {
  }

  lemma FlatPath(m: Mem, t: Tree, cur: Ptr, limit: nat)
    requires Represents(m, t) && Flat(t) && IsLeaf(t, cur) && t.depth <= limit && Remaining(m, t.root) > 0
    ensures OutermostExhausted(m, cur, NULL, limit) == if Remaining(m, cur) == 0 then cur else NULL
  {
    FlatLeaves(t, cur, cur);
    assert NodeOk(t, cur) && NodeOk(t, t.root) && Holds(m, t, cur) && Holds(m, t, t.root);
    assert OutermostExhausted(m, NULL, cur, limit - 2) == cur;
    assert OutermostExhausted(m, NULL, NULL, limit - 2) == NULL;
  }

  // ----- one step

  /** Steps that leave the membership of the ring alone. */
  predicate Fixed(s: Step) {
    !s.SpawnStep? && !s.SpawnGroupStep? && !s.ExitStep? && !s.ReclaimStep?
  }

  lemma {:induction false} SweepKeepsCursors(m: Mem, visited: seq<Ptr>, f: Tcb -> Tcb)
    requires Rouses(f)
    ensures forall x :: Cursor(Sweep(m, visited, f), x) == Cursor(m, x)
  {
    SweepRouses(m, visited, f);
    forall x ensures Cursor(Sweep(m, visited, f), x) == Cursor(m, x) {
      if x in m {
        assert RousedNode(m[x], Sweep(m, visited, f)[x]);
      }
    }
  }

  lemma QuietKeepsCursors(k: State, s: Step)
    requires Quiet(s)
    ensures forall x :: Cursor(Apply(k, s).mem, x) == Cursor(k.mem, x)
  {
    match s
    case WakeStep(id) =>
      CallbacksRouse(0, id, 0);
      SweepKeepsCursors(k.mem, Visited(k), WakeOne(id));
    case ReleaseStep(resource) =>
      CallbacksRouse(0, 0, resource);
      SweepKeepsCursors(k.mem, Visited(k), ReleaseOne(resource));
    case _ =>
  }

  lemma QuietWaits(k: State, t: Tree, dead: seq<Ptr>, x: Ptr, s: Step)
    requires OneRing(k, t, dead) && IsLeaf(t, x) && Quiet(s)
    ensures OneRing(Apply(k, s), t, dead) && Wait(Apply(k, s), t, dead, x) == Wait(k, t, dead, x)
  {
    hide Apply, WellFormed;
    Structure(k, t, dead);
    StepWellFormed(k, t, dead, s);
    TreeStands(k, t, dead, s);
    QuietKeepsQuanta(k, s);
    QuietKeepsCursors(k, s);
    RootStands(k, t, dead);
    if k.current != NULL {
      assert Holds(k.mem, t, k.current);
    }
  }

  /** The state between a drain and the dispatch. */
  ghost predicate AfterDrain(k: State, mid: State, t: Tree, dead: seq<Ptr>, spent: nat) {
    && OneRing(mid, t, dead)
    && mid.current == k.current && Cursor(mid.mem, t.root) == Cursor(k.mem, t.root)
    && Remaining(mid.mem, t.root) > 0
    && spent <= 1
    && (k.current != NULL ==>
          Remaining(mid.mem, k.current) == if Remaining(k.mem, k.current) < spent then 0
                                           else Remaining(k.mem, k.current) - spent)
  }

  /** What the switch leaves of quanta, cursor and current task. */
  lemma SwitchTo(mid: State, t: Tree, dead: seq<Ptr>, m: Mem, y: Ptr)
    requires OneRing(mid, t, dead)
    requires PickNextLeaf(mid.mem, t.root, mid.current, WalkLimit(mid.nodes)) == (m, y) && y != NULL
    ensures var k' := ScheduleNext(mid).0;
            && OneRing(k', t, dead)
            && k'.current == y && IsLeaf(t, y)
            && (forall z :: Remaining(k'.mem, z) == Remaining(m, z))
            && Cursor(k'.mem, t.root) == Cursor(m, t.root)
            && k'.ticks == mid.ticks
  {
    hide WellFormed, PickNextLeaf, HandOver;
    Structure(mid, t, dead);
    ScheduleIsSound(mid, t, dead);
    ScheduleArms(mid, t, dead);
    RootStands(mid, t, dead);
    if mid.current != NULL {
      LinkedLeaf(mid.mem, t, mid.current);
    }
    PickOffers(mid.mem, t, mid.current, WalkLimit(mid.nodes));
    PickLinked(mid.mem, t, mid.current, WalkLimit(mid.nodes));
    HandOverQuanta(m, mid.current, y);
    HandOverCursors(m, mid.current, y);
  }

  lemma StayWaits(k: State, mid: State, t: Tree, dead: seq<Ptr>, x: Ptr, spent: nat)
    requires OneRing(k, t, dead) && AfterDrain(k, mid, t, dead, spent)
    requires IsLeaf(t, x) && Runnable(mid.mem, x) && k.current != x && k.current != NULL
    requires Runnable(mid.mem, k.current) && Remaining(mid.mem, k.current) > 0
    ensures var k' := ScheduleNext(mid).0;
            && OneRing(k', t, dead) && k'.current == k.current
            && Cursor(k'.mem, t.root) == Cursor(k.mem, t.root)
            && Remaining(k'.mem, k.current) + spent == Remaining(k.mem, k.current)
            && (forall z :: Remaining(k'.mem, z) == Remaining(mid.mem, z))
            && Wait(k', t, dead, x) + spent == Wait(k, t, dead, x)
  {
    hide WellFormed, PickNextLeaf, ScheduleNext, Between;
    Structure(mid, t, dead);
    var y, e := FlatPick(mid.mem, t, k.current, x, WalkLimit(mid.nodes));
    SwitchTo(mid, t, dead, mid.mem, k.current);
  }

  /** What a dispatch that moves on does, by rings and quanta. */
  lemma MoveOn(mid: State, t: Tree, dead: seq<Ptr>, x: Ptr) returns (y: Ptr, e: nat)
    requires OneRing(mid, t, dead) && Remaining(mid.mem, t.root) > 0 && mid.current != NULL
    requires IsLeaf(t, x) && Runnable(mid.mem, x)
    requires !(Runnable(mid.mem, mid.current) && Remaining(mid.mem, mid.current) > 0)
    ensures var c := Cursor(mid.mem, t.root);
            && IsLeaf(t, c) && c != t.root && x != t.root && ParentOf(t, c) == t.root == ParentOf(t, x)
            && 1 <= e <= Gap(t, c, x) && y == Around(t, c, e) && y != t.root
    ensures var k' := ScheduleNext(mid).0;
            && InPlace(k', t, dead) && k'.current == y && IsLeaf(t, y)
            && Remaining(k'.mem, y) == (if Remaining(mid.mem, y) == 0 then t.nodes[y].slice else Remaining(mid.mem, y))
            && Remaining(k'.mem, y) <= t.nodes[y].slice
            && (forall z | z != y :: Remaining(k'.mem, z) == Remaining(mid.mem, z))
            && k'.ticks == mid.ticks
  {
    hide WellFormed, PickNextLeaf, ScheduleNext, Gap, Around;
    Structure(mid, t, dead);
    y, e := FlatPick(mid.mem, t, mid.current, x, WalkLimit(mid.nodes));
    FlatMember(t, Cursor(mid.mem, t.root), e);
    assert NodeOk(t, y) && Holds(mid.mem, t, y);
    SwitchTo(mid, t, dead, SetCursor(ArmIfNeeded(mid.mem, y), t.root, y), y);
  }

  lemma MoveWaits(k: State, mid: State, t: Tree, dead: seq<Ptr>, x: Ptr, spent: nat)
    requires OneRing(k, t, dead) && AfterDrain(k, mid, t, dead, spent)
    requires IsLeaf(t, x) && Runnable(mid.mem, x) && k.current != x && k.current != NULL
    requires !(Runnable(mid.mem, k.current) && Remaining(mid.mem, k.current) > 0)
    ensures var k' := ScheduleNext(mid).0;
            && OneRing(k', t, dead)
            && (k'.current == x || Wait(k', t, dead, x) + 1 <= Wait(k, t, dead, x))
  {
    hide WellFormed, ScheduleNext, Around, Gap, Ahead;
    var y, e := MoveOn(mid, t, dead, x);
    var c := Cursor(mid.mem, t.root);
    Structure(k, t, dead);
    FlatLeaves(t, c, x);
    FlatLeaves(t, y, x);
    if y != x {
      GapReaches(t, c, x);
      if e < Gap(t, c, x) {
        GapShrinks(t, c, x, e);
      }
      AheadSplits(t, c, e, Gap(t, c, x) - 1);
    }
  }

  lemma EntryWaits(k: State, mid: State, t: Tree, dead: seq<Ptr>, x: Ptr, spent: nat)
    requires OneRing(k, t, dead) && AfterDrain(k, mid, t, dead, spent)
    requires IsLeaf(t, x) && Runnable(mid.mem, x) && k.current == NULL
    ensures var k' := ScheduleNext(mid).0;
            && OneRing(k', t, dead)
            && (k'.current == x || Wait(k', t, dead, x) + 1 <= Wait(k, t, dead, x))
  {
    hide WellFormed, ScheduleNext, PickNextLeaf, Around, Gap, Ahead, Longest;
    Structure(k, t, dead);
    Structure(mid, t, dead);
    var y, e := FlatEntry(mid.mem, t, x, WalkLimit(mid.nodes));
    var c := Cursor(mid.mem, t.root);
    FlatMember(t, c, e);
    FlatLeaves(t, y, x);
    AroundNone(t, c);
    assert NodeOk(t, y) && Holds(mid.mem, t, y);
    SwitchTo(mid, t, dead, ArmIfNeeded(mid.mem, y), y);
    if y != x {
      GapReaches(t, c, x);
      LongestOf(t, c, Gap(t, c, x), e);
    }
  }

  lemma DispatchWaits(k: State, mid: State, t: Tree, dead: seq<Ptr>, x: Ptr, spent: nat)
    requires OneRing(k, t, dead) && AfterDrain(k, mid, t, dead, spent)
    requires IsLeaf(t, x) && Runnable(mid.mem, x) && k.current != x
    ensures var k' := ScheduleNext(mid).0;
            && OneRing(k', t, dead)
            && (k'.current == x || Wait(k', t, dead, x) + spent <= Wait(k, t, dead, x))
  {
    hide WellFormed, ScheduleNext, Wait;
    if k.current == NULL {
      EntryWaits(k, mid, t, dead, x, spent);
    } else if Runnable(mid.mem, k.current) && Remaining(mid.mem, k.current) > 0 {
      StayWaits(k, mid, t, dead, x, spent);
    } else {
      MoveWaits(k, mid, t, dead, x, spent);
    }
  }

  lemma PickLinked(m: Mem, t: Tree, cur: Ptr, limit: nat)
    requires Represents(m, t) && (cur == NULL || IsLeaf(t, cur)) && t.depth <= limit
    requires PickNextLeaf(m, t.root, cur, limit).1 != NULL
    ensures Linked(PickNextLeaf(m, t.root, cur, limit).0, PickNextLeaf(m, t.root, cur, limit).1)
  {
    hide PickNextLeaf;
    PickOffers(m, t, cur, limit);
    var (m', next) := PickNextLeaf(m, t.root, cur, limit);
    SteppedHolds(m, m', t);
    LinkedLeaf(m', t, next);
  }

  lemma HandOverCursors(m: Mem, cur: Ptr, next: Ptr)
    requires next in m
    ensures forall x :: Cursor(HandOver(m, cur, next), x) == Cursor(m, x)
  {
  }

  lemma FlatMember(t: Tree, cur: Ptr, e: nat)
    requires Valid(t) && Flat(t) && IsLeaf(t, cur) && cur != t.root
    ensures IsLeaf(t, Around(t, cur, e))
  {
  }

  /** A tick, by what it leaves of quanta and cursors. */
  lemma TickSpends(k: State, t: Tree)
    requires Represents(k.mem, t) && k.root == t.root && t.depth <= k.nodes && IsLeaf(t, k.current)
    ensures var m' := OnTick(k).mem;
            forall x | x in k.mem ::
              && Cursor(m', x) == Cursor(k.mem, x)
              && Remaining(m', x) == if Above(t, x, k.current) then Spent(k.mem[x]).remaining else Remaining(k.mem, x)
  {
    hide DrainPath, Sweep, Represents;
    var limit, cur := WalkLimit(k.nodes), k.current;
    var m1 := DrainPath(k.mem, cur, limit);
    var k1 := k.(ticks := k.ticks + 1, mem := m1);
    RepresentsClimbs(k.mem, t);
    assert NodeOk(t, cur);
    DrainSpendsPath(k.mem, t, cur, limit);
    CallbacksRouse(k1.ticks, 0, 0);
    SweepKeepsQuanta(m1, Visited(k1), ExpireOne(k1.ticks));
    SweepKeepsCursors(m1, Visited(k1), ExpireOne(k1.ticks));
  }

  lemma TickIdles(k: State, t: Tree, dead: seq<Ptr>)
    requires WellFormed(k, t, dead) && k.current == NULL
    ensures forall x :: Cursor(OnTick(k).mem, x) == Cursor(k.mem, x) && Remaining(OnTick(k).mem, x) == Remaining(k.mem, x)
  {
    hide DrainPath, Sweep, WellFormed;
    Structure(k, t, dead);
    IdlePath(k.mem, WalkLimit(k.nodes));
    var k1 := k.(ticks := k.ticks + 1);
    CallbacksRouse(k1.ticks, 0, 0);
    SweepKeepsQuanta(k.mem, Visited(k1), ExpireOne(k1.ticks));
    SweepKeepsCursors(k.mem, Visited(k1), ExpireOne(k1.ticks));
  }

  lemma TickDrains(k: State, t: Tree, dead: seq<Ptr>)
    requires OneRing(k, t, dead) && k.ticks + 1 < U32_MAX
    ensures AfterDrain(k, OnTick(k), t, dead, 1)
  {
    hide WellFormed, OnTick;
    Structure(k, t, dead);
    OnTickWellFormed(k, t, dead);
    TickAtRoot(k, t, dead);
    TickKeepsCurrent(k);
    RootStands(k, t, dead);
    if k.current == NULL {
      TickIdles(k, t, dead);
    } else {
      TickSpends(k, t);
      assert Holds(k.mem, t, k.current);
      assert Above(t, k.current, k.current);
    }
  }

  lemma TickKeepsCurrent(k: State)
    ensures OnTick(k).current == k.current && OnTick(k).nodes == k.nodes && OnTick(k).ticks == k.ticks + 1
  {
    hide DrainPath, Sweep, Visited;
  }

  lemma OnTickLets(k: State, x: Ptr)
    requires Runnable(k.mem, x)
    ensures Runnable(OnTick(k).mem, x)
  {
    hide Sweep;
    var m1 := DrainPath(k.mem, k.current, WalkLimit(k.nodes));
    DrainLets(k.mem, k.current, WalkLimit(k.nodes), x);
    var k1 := k.(ticks := k.ticks + 1, mem := m1);
    CallbacksRouse(k1.ticks, 0, 0);
    SweepRouses(m1, Visited(k1), ExpireOne(k1.ticks));
    assert RousedNode(m1[x], Sweep(m1, Visited(k1), ExpireOne(k1.ticks))[x]);
  }

  lemma {:induction false} DrainLets(m: Mem, n: Ptr, budget: nat, x: Ptr)
    requires Runnable(m, x)
    ensures Runnable(DrainPath(m, n, budget), x)
    decreases budget
  {
    if n in m && budget > 0 {
      DrainLets(SetRemaining(m, n, if m[n].remaining == 0 then 0 else m[n].remaining - 1), m[n].parent, budget - 1, x);
    }
  }

  lemma WaitStep(k: State, t: Tree, dead: seq<Ptr>, x: Ptr, s: Step)
    requires OneRing(k, t, dead) && IsLeaf(t, x) && Runnable(k.mem, x) && k.current != x
    requires Fixed(s) && Apply(k, s).ticks < U32_MAX
    ensures OneRing(Apply(k, s), t, dead)
    ensures || Apply(k, s).current == x
            || Wait(Apply(k, s), t, dead, x) + (if s.TickStep? then 1 else 0) <= Wait(k, t, dead, x)
  {
    hide WellFormed, OnTick, ScheduleNext, OneRing, Wait, AfterDrain;
    match s
    case TickStep =>
      TicksGrow(k, s);
      TickDrains(k, t, dead);
      OnTickLets(k, x);
      DispatchWaits(k, OnTick(k), t, dead, x, 1);
    case SwitchStep =>
      TicksGrow(k, s);
      SwitchDrains(k, t, dead);
      DispatchWaits(k, k, t, dead, x, 0);
    case _ =>
      assert Quiet(s);
      QuietWaits(k, t, dead, x, s);
  }

  lemma SwitchDrains(k: State, t: Tree, dead: seq<Ptr>)
    requires OneRing(k, t, dead) && k.ticks < U32_MAX
    ensures AfterDrain(k, k, t, dead, 0)
  {
  }

  // ----- the run

  function TicksIn(steps: seq<Step>): nat {
    if steps == [] then 0
    else TicksIn(steps[..|steps| - 1]) + (if steps[|steps| - 1].TickStep? then 1 else 0)
  }

  lemma {:induction false} WaitRun(k: State, t: Tree, dead: seq<Ptr>, x: Ptr, steps: seq<Step>)
    requires OneRing(k, t, dead) && IsLeaf(t, x)
    requires forall i | 0 <= i < |steps| :: Fixed(steps[i])
    requires forall i | 0 <= i <= |steps| :: Runnable(Run(k, steps[..i]).mem, x) && Run(k, steps[..i]).current != x
    requires Run(k, steps).ticks < U32_MAX
    ensures OneRing(Run(k, steps), t, dead)
    ensures Wait(Run(k, steps), t, dead, x) + TicksIn(steps) <= Wait(k, t, dead, x)
  {
    hide OneRing, Wait, Apply;
    if steps != [] {
      var before, s := steps[..|steps| - 1], steps[|steps| - 1];
      assert steps[..|steps|] == steps;
      forall i | 0 <= i <= |before|
        ensures Runnable(Run(k, before[..i]).mem, x) && Run(k, before[..i]).current != x
      {
        assert before[..i] == steps[..i];
      }
      assert before[..|before|] == before;
      TicksGrow(Run(k, before), s);
      WaitRun(k, t, dead, x, before);
      WaitStep(Run(k, before), t, dead, x, s);
    }
  }

  lemma StillWaiting(k: State, t: Tree, dead: seq<Ptr>, x: Ptr)
    requires OneRing(k, t, dead) && IsLeaf(t, x) && k.current != x
    ensures Wait(k, t, dead, x) >= 1
  {
  }

  /** From any flat state: a task that stays runnable is on the CPU at some point of any run
      with as many ticks as Wait says, whatever the others block on, whoever wakes them, and
      however many switches are asked for in between. */
  lemma WaitIsBounded(k: State, t: Tree, dead: seq<Ptr>, x: Ptr, steps: seq<Step>)
    requires OneRing(k, t, dead) && IsLeaf(t, x)
    requires forall i | 0 <= i < |steps| :: Fixed(steps[i])
    requires forall i | 0 <= i <= |steps| :: Runnable(Run(k, steps[..i]).mem, x)
    requires Run(k, steps).ticks < U32_MAX
    requires TicksIn(steps) >= Wait(k, t, dead, x)
    ensures exists i :: 0 <= i <= |steps| && Run(k, steps[..i]).current == x
  {
    hide OneRing, Wait, Run;
    if forall i | 0 <= i <= |steps| :: Run(k, steps[..i]).current != x {
      WaitRun(k, t, dead, x, steps);
      assert steps[..|steps|] == steps;
      StillWaiting(Run(k, steps), t, dead, x);
    }
  }

  /** Where the rotation is in place that is no more than the slices of the others. */
  lemma WaitInPlace(k: State, t: Tree, dead: seq<Ptr>, x: Ptr, steps: seq<Step>)
    requires InPlace(k, t, dead) && IsLeaf(t, x)
    requires forall i | 0 <= i < |steps| :: Fixed(steps[i])
    requires forall i | 0 <= i <= |steps| :: Runnable(Run(k, steps[..i]).mem, x)
    requires Run(k, steps).ticks < U32_MAX
    requires TicksIn(steps) >= OtherSlices(t, x)
    ensures exists i :: 0 <= i <= |steps| && Run(k, steps[..i]).current == x
  {
    hide OneRing, Wait, Run, OtherSlices;
    InPlaceBound(k, t, dead, x);
    WaitIsBounded(k, t, dead, x, steps);
  }

  /** Every flat state the kernel can reach is one the bound applies to. */
  lemma ReachableRing(r: Ptr, a: Ptr, steps: seq<Step>) returns (t: Tree, dead: seq<Ptr>)
    requires r != NULL && a != NULL && r != a && Legal(Init(r, a), steps)
    ensures WellFormed(Run(Init(r, a), steps), t, dead)
    ensures Flat(t) ==> OneRing(Run(Init(r, a), steps), t, dead)
  {
    hide WellFormed, Run, Init, RootPays;
    t, dead := RunPays(r, a, steps);
  }

  /** With one-tick slices the bound is the number of other tasks. */
  lemma {:induction false} OneTickSlices(t: Tree, y: Ptr, n: nat)
    requires Valid(t) && y in t.nodes && y != t.root
    requires forall x | x in t.nodes && x != t.root :: t.nodes[x].slice == 1
    ensures Ahead(t, y, n) == n
    decreases n
  {
    if n > 0 {
      OneTickSlices(t, After(t, y), n - 1);
    }
  }
}
