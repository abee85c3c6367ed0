/**
  Work conservation: when the dispatcher finds somebody to run, and when it does not.

  Descending never backtracks: each group offers the child its visit would resume on, and
  if that child has nothing to give, neither has the group.  So the exact condition is
  about those resume chains, and general work conservation fails.
 */
module Conserve {
  import opened RoundRobin
  import opened Tree
  import opened Memory
  import opened Dispatch
  import opened Climb
  import opened Rings
  import opened Soundness
  import opened Timeline
  import opened Lifecycle
  import opened Invariant
  import opened Books
  import opened Runs

  /** The resume chain from x ends in a leaf that can run. */
  ghost predicate Yields(m: Mem, t: Tree, x: Ptr)
    requires Valid(t) && x in t.nodes
    decreases t.depth - t.nodes[x].level
  {
    assert NodeOk(t, x);
    if x !in t.kids then Runnable(m, x)
    else
      var c := ResumeChild(m, x);
      Runnable(m, c) && IsKid(t, x, c) && (KidIsNotRoot(t, x, c); assert NodeOk(t, c); Yields(m, t, c))
  }

  // ----- what a dispatch attempt leaves of the resume chains

  lemma {:induction false} SkipFrame(m: Mem, m': Mem, t: Tree, from: Ptr, p: Ptr, budget: nat)
    requires Stepped(m, m', t)
    ensures SkipBlocked(m', from, p, budget) == SkipBlocked(m, from, p, budget)
    decreases budget
  {
    SteppedRuns(m, m', t, from);
    if p in m {
      assert SteppedNode(m[p], m'[p], t, p);
      if NotRunnable(m[p].state) && m[p].next != from && budget > 0 {
        SkipFrame(m, m', t, from, m[p].next, budget - 1);
      }
    }
  }

  lemma NextFrame(m: Mem, m': Mem, t: Tree, p: Ptr)
    requires Stepped(m, m', t)
    ensures NextRunnable(m', p) == NextRunnable(m, p)
  {
    if p in m {
      assert SteppedNode(m[p], m'[p], t, p);
      assert |m.Keys| == |m| && |m'.Keys| == |m'|;
      SkipFrame(m, m', t, p, m[p].next, |m|);
    }
  }

  lemma ResumeFrame(m: Mem, m': Mem, t: Tree, g: Ptr)
    requires Stepped(m, m', t)
    requires Cursor(m', g) == Cursor(m, g) || (Cursor(m', g) == ResumeChild(m, g) && Runnable(m, ResumeChild(m, g)))
    requires Represents(m, t) && g in t.kids && g in t.nodes
    ensures ResumeChild(m', g) == ResumeChild(m, g)
  {
    assert Holds(m, t, g) && SteppedNode(m[g], m'[g], t, g);
    var cur, h := Cursor(m, g), Head(m, g);
    NextFrame(m, m', t, cur);
    NextFrame(m, m', t, h);
    SteppedRuns(m, m', t, cur);
    SteppedRuns(m, m', t, h);
    SteppedRuns(m, m', t, ResumeChild(m, g));
    assert h in m <==> h in m';
    if cur in m {
      assert SteppedNode(m[cur], m'[cur], t, cur);
    }
    if h in m {
      assert SteppedNode(m[h], m'[h], t, h);
    }
    if Cursor(m', g) != cur {
      ResumeIsFair(m, t, g);
      SteppedHolds(m, m', t);
      ResumeIsFair(m', t, g);
    }
  }

  /** Every resume target, and everybody's ability to run, is as before. */
  ghost predicate SameTargets(m: Mem, m': Mem, t: Tree) {
    && Stepped(m, m', t)
    && forall g {:trigger ResumeChild(m', g)} | g in t.kids :: ResumeChild(m', g) == ResumeChild(m, g)
  }

  lemma {:induction false} YieldsFrame(m: Mem, m': Mem, t: Tree, x: Ptr)
    requires Represents(m, t) && x in t.nodes && SameTargets(m, m', t)
    ensures Yields(m', t, x) == Yields(m, t, x)
    decreases t.depth - t.nodes[x].level
  {
    hide ResumeChild;
    assert NodeOk(t, x);
    SteppedRuns(m, m', t, x);
    if x in t.kids {
      var c := ResumeChild(m, x);
      assert ResumeChild(m', x) == c;
      SteppedRuns(m, m', t, c);
      if IsKid(t, x, c) {
        KidIsNotRoot(t, x, c);
        assert NodeOk(t, c);
        YieldsFrame(m, m', t, c);
      }
    }
  }

  lemma TargetsTrans(m: Mem, m1: Mem, m2: Mem, t: Tree)
    requires SameTargets(m, m1, t) && SameTargets(m1, m2, t)
    ensures SameTargets(m, m2, t)
  {
    hide ResumeChild, Stepped;
    SteppedTrans(m, m1, m2, t);
    forall g | g in t.kids ensures ResumeChild(m2, g) == ResumeChild(m, g) {
      assert ResumeChild(m1, g) == ResumeChild(m, g);
    }
  }

  lemma ArmKeepsTargets(m: Mem, t: Tree, p: Ptr)
    requires Represents(m, t)
    ensures SameTargets(m, ArmIfNeeded(m, p), t)
  {
    hide ResumeChild;
    ArmSteps(m, t, p);
    forall g | g in t.kids ensures ResumeChild(ArmIfNeeded(m, p), g) == ResumeChild(m, g) {
      ResumeFrame(m, ArmIfNeeded(m, p), t, g);
    }
  }

  lemma CursorKeepsTargets(m: Mem, t: Tree, g: Ptr)
    requires Represents(m, t) && g in t.kids && g in t.nodes && g in m
    requires Runnable(m, ResumeChild(m, g)) && IsKid(t, g, ResumeChild(m, g))
    ensures SameTargets(m, SetCursor(m, g, ResumeChild(m, g)), t)
  {
    hide ResumeChild;
    var m' := SetCursor(m, g, ResumeChild(m, g));
    CursorSteps(m, t, g, ResumeChild(m, g));
    forall h | h in t.kids ensures ResumeChild(m', h) == ResumeChild(m, h) {
      ResumeFrame(m, m', t, h);
    }
  }

  // ----- descending finds exactly what yields

  lemma {:induction false} DescendIffYields(m: Mem, t: Tree, p: Ptr, budget: nat)
    requires Represents(m, t) && p in t.nodes && t.depth <= t.nodes[p].level + budget
    ensures DescendAndArm(m, p, budget).1 != NULL <==> Yields(m, t, p)
    ensures SameTargets(m, DescendAndArm(m, p, budget).0, t)
    decreases budget
  {
    hide ResumeChild, Represents, Stepped;
    KindKnown(m, t, p);
    ArmKeepsTargets(m, t, p);
    var armed := ArmIfNeeded(m, p);
    ArmSteps(m, t, p);
    SteppedHolds(m, armed, t);
    SteppedRuns(m, armed, t, p);
    if p in t.kids {
      var c := ResumeChild(armed, p);
      assert c == ResumeChild(m, p);
      SteppedRuns(m, armed, t, c);
      ResumeIsFair(armed, t, p);
      if Runnable(armed, c) {
        KidIsNotRoot(t, p, c);
        CursorKeepsTargets(armed, t, p);
        var m1 := SetCursor(armed, p, c);
        SteppedHolds(armed, m1, t);
        KindKnown(m1, t, c);
        DescendIffYields(m1, t, c, budget - 1);
        TargetsTrans(m, armed, m1, t);
        TargetsTrans(m, m1, DescendAndArm(m1, c, budget - 1).0, t);
        YieldsFrame(m, m1, t, c);
      }
    } else {
      NotAskedTwice(m, t);
    }
  }

  lemma KindKnown(m: Mem, t: Tree, p: Ptr)
    requires Represents(m, t) && p in t.nodes
    ensures Valid(t) && p in m && (IsGroup(m, p) <==> p in t.kids) && t.nodes[p].level < t.depth && NULL !in m
    ensures p != t.root ==> t.nodes[p].level == t.nodes[ParentOf(t, p)].level + 1
  {
    assert NodeOk(t, p) && Holds(m, t, p);
  }

  lemma NotAskedTwice(m: Mem, t: Tree)
    requires Represents(m, t)
    ensures SameTargets(m, m, t)
  {
  }

  // ----- scanning and climbing

  ghost predicate NoKidYields(m: Mem, t: Tree, g: Ptr)
    requires Valid(t)
  {
    forall c | IsKid(t, g, c) :: !Yields(m, t, c)
  }

  lemma NoKidFrame(m: Mem, m': Mem, t: Tree, g: Ptr)
    requires Represents(m, t) && SameTargets(m, m', t)
    ensures NoKidYields(m', t, g) <==> NoKidYields(m, t, g)
  {
    hide Yields, SameTargets;
    forall c | IsKid(t, g, c) ensures Yields(m', t, c) == Yields(m, t, c) {
      YieldsFrame(m, m', t, c);
    }
  }

  lemma YieldersRun(m: Mem, t: Tree, x: Ptr)
    requires Represents(m, t) && x in t.nodes && Yields(m, t, x)
    ensures Runnable(m, x)
  {
    assert Holds(m, t, x);
  }

  /** From the d-th successor of start to the end of the lap, somebody yields. */
  ghost predicate SomeoneYields(m: Mem, t: Tree, start: Ptr, d: nat)
    requires Valid(t) && start in t.nodes && start != t.root
  {
    exists e: nat {:trigger Around(t, start, e)} :: d <= e < RingSize(t, start) && Yields(m, t, Around(t, start, e))
  }

  lemma {:induction false} ScanIffYields(m: Mem, t: Tree, g: Ptr, start: Ptr, d: nat, limit: nat, budget: nat)
    requires Represents(m, t) && g in t.kids && g in t.nodes && t.depth <= limit
    requires IsKid(t, g, start) && start != t.root && d < RingSize(t, start) <= d + budget + 1
    ensures var (m', leaf) := ScanRing(m, g, start, Around(t, start, d), limit, budget);
            && (leaf != NULL <==> SomeoneYields(m, t, start, d))
            && (leaf == NULL ==> SameTargets(m, m', t))
    decreases budget
  {
    hide Yields, DescendAndArm, ResumeChild, SameTargets, Represents, SomeoneYields;
    ScanStandsAt(m, t, g, start, d);
    var p, n := Around(t, start, d), RingSize(t, start);
    var (tried, leaf) := if Runnable(m, p) then DescendAndArm(m, p, limit) else (m, NULL);
    DescendIffYields(m, t, p, limit);
    NotAskedTwice(m, t);
    if Yields(m, t, p) {
      YieldersRun(m, t, p);
      FoundHere(m, t, start, d);
    } else {
      assert leaf == NULL && SameTargets(m, tried, t);
      TargetsHold(m, tried, t);
      NextInMemory(tried, t, p);
      NextInMemory(tried, t, After(t, p));
      assert Around(t, start, d + 1) == After(t, p);
      FullLap(t, start, d + 1);
      if d + 1 == n {
        NobodyLeft(m, t, start, d);
      } else {
        ScanIffYields(tried, t, g, start, d + 1, limit, budget - 1);
        ScanShift(m, tried, t, start, d);
        var m' := ScanRing(tried, g, start, After(t, p), limit, budget - 1).0;
        if ScanRing(tried, g, start, After(t, p), limit, budget - 1).1 == NULL {
          TargetsTrans(m, tried, m', t);
        }
      }
    }
  }

  lemma FoundHere(m: Mem, t: Tree, start: Ptr, d: nat)
    requires Valid(t) && start in t.nodes && start != t.root && d < RingSize(t, start) && Yields(m, t, Around(t, start, d))
    ensures SomeoneYields(m, t, start, d)
  {
  }

  lemma NobodyLeft(m: Mem, t: Tree, start: Ptr, d: nat)
    requires Valid(t) && start in t.nodes && start != t.root && d + 1 == RingSize(t, start)
    requires !Yields(m, t, Around(t, start, d))
    ensures !SomeoneYields(m, t, start, d)
  {
  }

  lemma ScanStandsAt(m: Mem, t: Tree, g: Ptr, start: Ptr, d: nat)
    requires Represents(m, t) && g in t.nodes && IsKid(t, g, start) && start != t.root
    ensures Valid(t) && Around(t, start, d) in t.nodes && t.nodes[Around(t, start, d)].level < t.depth
  {
    assert NodeOk(t, Around(t, start, d));
  }

  lemma TargetsHold(m: Mem, m': Mem, t: Tree)
    requires Represents(m, t) && SameTargets(m, m', t)
    ensures Represents(m', t)
  {
    SteppedHolds(m, m', t);
  }

  lemma ScanShift(m: Mem, m': Mem, t: Tree, start: Ptr, d: nat)
    requires Represents(m, t) && SameTargets(m, m', t)
    requires start in t.nodes && start != t.root && d < RingSize(t, start) && !Yields(m, t, Around(t, start, d))
    ensures SomeoneYields(m, t, start, d) <==> SomeoneYields(m', t, start, d + 1)
  {
    hide Yields, SameTargets;
    forall e: nat ensures Yields(m', t, Around(t, start, e)) == Yields(m, t, Around(t, start, e)) {
      YieldsFrame(m, m', t, Around(t, start, e));
    }
  }

  lemma WholeRing(m: Mem, t: Tree, g: Ptr, start: Ptr)
    requires Valid(t) && g in t.nodes && IsKid(t, g, start) && start != t.root
    ensures NoKidYields(m, t, g) <==> !SomeoneYields(m, t, start, 0)
  {
    hide Yields;
    var n := RingSize(t, start);
    if !SomeoneYields(m, t, start, 0) {
      forall c | IsKid(t, g, c) ensures !Yields(m, t, c) {
        KidIsNotRoot(t, g, c);
        GapReaches(t, start, c);
        var e := if c == start then 0 else Gap(t, start, c);
        FullLap(t, start, Gap(t, start, c));
        assert Around(t, start, 0) == start;
        assert Around(t, start, e) == c;
      }
    }
    if NoKidYields(m, t, g) {
      forall e: nat | e < n ensures !Yields(m, t, Around(t, start, e)) {
        KidIsNotRoot(t, g, start);
        assert IsKid(t, g, Around(t, start, e));
      }
    }
  }

  /** The turn finds nobody exactly when no child of the group, or of any group above it,
      yields. */
  lemma {:induction false} AdvanceIffYields(m: Mem, t: Tree, g: Ptr, limit: nat, budget: nat)
    requires Represents(m, t) && g in t.kids && g in t.nodes && t.depth <= limit && t.nodes[g].level < budget
    ensures AdvanceFrom(m, g, limit, budget).1 == NULL <==> forall h | Above(t, h, g) :: NoKidYields(m, t, h)
    decreases budget
  {
    hide ScanRing, Yields, NoKidYields, SameTargets;
    assert Holds(m, t, g) && NodeOk(t, g);
    var linked := Linked(m, Head(m, g));
    var (tried, leaf) :=
      if linked then ScanRing(m, g, ScanStart(m, g), ScanStart(m, g), limit, |m|) else (m, NULL);
    assert (leaf == NULL <==> NoKidYields(m, t, g)) && (leaf == NULL ==> SameTargets(m, tried, t)) by {
      OneRing(m, t, g, limit);
    }
    assert Above(t, g, g);
    if leaf == NULL {
      TargetsHold(m, tried, t);
      assert Holds(tried, t, g);
      if g == t.root {
        assert AdvanceFrom(tried, NULL, limit, budget - 1).1 == NULL;
      } else {
        var up := ParentOf(t, g);
        AdvanceIffYields(tried, t, up, limit, budget - 1);
        assert forall h :: Above(t, h, g) <==> h == g || Above(t, h, up);
        forall h | Above(t, h, up) ensures NoKidYields(tried, t, h) <==> NoKidYields(m, t, h) {
          NoKidFrame(m, tried, t, h);
        }
      }
    }
  }

  lemma OneRing(m: Mem, t: Tree, g: Ptr, limit: nat)
    requires Represents(m, t) && g in t.kids && g in t.nodes && t.depth <= limit
    ensures var (tried, leaf) :=
              if Linked(m, Head(m, g)) then ScanRing(m, g, ScanStart(m, g), ScanStart(m, g), limit, |m|) else (m, NULL);
            && (leaf == NULL <==> NoKidYields(m, t, g))
            && (leaf == NULL ==> SameTargets(m, tried, t))
  {
    hide ScanRing, Yields, SameTargets;
    assert Holds(m, t, g);
    NotAskedTwice(m, t);
    if Linked(m, Head(m, g)) {
      ScanStartIsKid(m, t, g);
      var start := ScanStart(m, g);
      KidIsNotRoot(t, g, start);
      RingFits(m, t, start);
      assert Around(t, start, 0) == start;
      ScanIffYields(m, t, g, start, 0, limit, |m|);
      WholeRing(m, t, g, start);
    } else {
      NoKidsUnlinked(m, t, g);
    }
  }

  lemma NoKidsUnlinked(m: Mem, t: Tree, g: Ptr)
    requires Represents(m, t) && g in t.kids && g in t.nodes && !Linked(m, Head(m, g))
    ensures forall c :: !IsKid(t, g, c)
  {
    assert Holds(m, t, g);
    if |t.kids[g]| > 0 {
      assert KidOk(t, g, 0);
      NextInMemory(m, t, t.kids[g][0]);
    }
    forall c ensures !IsKid(t, g, c) {
      if c in t.nodes {
        assert NodeOk(t, c);
      }
    }
  }

  // ----- the whole choice

  /** Where the search for the next leaf begins: the memory after retiring spent nodes, and
      the group whose ring is scanned first. */
  ghost function SearchFrom(m: Mem, root: Ptr, cur: Ptr, limit: nat): (Mem, Ptr) {
    var z := OutermostExhausted(m, cur, NULL, limit);
    if cur !in m || z == NULL then (m, root)
    else
      var retired := RetireSpent(m, cur, z, limit + 1);
      (retired, if z == root || Parent(retired, z) !in retired then root else Parent(retired, z))
  }

  /** The current leaf stays without a search: nothing on its path is spent. */
  ghost predicate Stays(m: Mem, cur: Ptr, limit: nat) {
    cur in m && OutermostExhausted(m, cur, NULL, limit) == NULL && Runnable(m, cur)
  }

  lemma SearchBegins(m: Mem, t: Tree, cur: Ptr, limit: nat)
    requires Represents(m, t) && t.depth <= limit && (cur == NULL || IsLeaf(t, cur))
    ensures var (m0, g) := SearchFrom(m, t.root, cur, limit);
            Represents(m0, t) && Stepped(m, m0, t) && g in t.kids && g in t.nodes && t.nodes[g].level < limit
  {
    assert NodeOk(t, t.root);
    NotAskedTwice(m, t);
    if cur != NULL {
      RepresentsClimbs(m, t);
      assert NodeOk(t, cur);
      OutermostFound(m, t, cur, NULL, limit);
      var z := OutermostExhausted(m, cur, NULL, limit);
      if z != NULL {
        RetireSteps(m, t, cur, z, limit + 1);
        var retired := RetireSpent(m, cur, z, limit + 1);
        SteppedHolds(m, retired, t);
        AboveLevel(t, z, cur);
        assert NodeOk(t, z) && Holds(retired, t, z);
        if z != t.root {
          assert NodeOk(t, ParentOf(t, z));
        }
      }
    }
  }

  /** schedule_next finds nobody exactly when the current leaf does not stay and no resume
      chain that starts beside or above the search yields. */
  lemma PickIffYields(m: Mem, t: Tree, cur: Ptr, limit: nat)
    requires Represents(m, t) && t.depth <= limit && (cur == NULL || IsLeaf(t, cur))
    ensures var (m0, g) := SearchFrom(m, t.root, cur, limit);
            && g in t.nodes
            && (PickNextLeaf(m, t.root, cur, limit).1 == NULL
                <==> !Stays(m, cur, limit) && forall h | Above(t, h, g) :: NoKidYields(m0, t, h))
  {
    hide AdvanceFrom, Yields, NoKidYields, DescendAndArm, ResumeChild, RetireSpent, OutermostExhausted;
    var (m0, g) := SearchFrom(m, t.root, cur, limit);
    SearchBegins(m, t, cur, limit);
    AdvanceIffYields(m0, t, g, limit, limit);
    assert Holds(m, t, t.root) && NULL !in m;
    if cur == NULL {
      IdleIffYields(m, t, limit);
    } else {
      assert Holds(m, t, cur);
    }
  }

  lemma IdleIffYields(m: Mem, t: Tree, limit: nat)
    requires Represents(m, t) && t.depth <= limit
    ensures PickNextLeaf(m, t.root, NULL, limit).1 == NULL <==> NoKidYields(m, t, t.root)
    ensures forall h | Above(t, h, t.root) :: h == t.root
  {
    hide AdvanceFrom, NoKidYields, DescendAndArm, ResumeChild, SameTargets;
    assert NodeOk(t, t.root) && Holds(m, t, t.root);
    var c := ResumeChild(m, t.root);
    var (tried, leaf) := DescendAndArm(m, c, limit);
    ResumeIsFair(m, t, t.root);
    assert (leaf == NULL ==> SameTargets(m, tried, t)) && (leaf != NULL ==> !NoKidYields(m, t, t.root)) by {
      if c in m {
        KidIsNotRoot(t, t.root, c);
        DescendIffYields(m, t, c, limit);
        if leaf != NULL { SomeKidYields(m, t, t.root, c); }
      } else {
        NullOffersNothing(m, c, limit);
        NotAskedTwice(m, t);
      }
    }
    if leaf == NULL {
      TargetsHold(m, tried, t);
      AdvanceIffYields(tried, t, t.root, limit, limit);
      NoKidFrame(m, tried, t, t.root);
      assert Above(t, t.root, t.root);
    }
  }

  lemma SomeKidYields(m: Mem, t: Tree, g: Ptr, c: Ptr)
    requires Valid(t) && IsKid(t, g, c) && Yields(m, t, c)
    ensures !NoKidYields(m, t, g)
  {
  }

  // ----- when that means there really is no work

  /** Some leaf at or below x can run. */
  ghost predicate HasWork(m: Mem, t: Tree, x: Ptr)
    requires Valid(t)
  {
    exists leaf :: IsLeaf(t, leaf) && Runnable(m, leaf) && Above(t, x, leaf)
  }

  /** No group inside a group is out of work. */
  ghost predicate InnerGroupsWork(m: Mem, t: Tree)
    requires Valid(t)
  {
    forall g {:trigger HasWork(m, t, g)} | g in t.kids && g in t.nodes && 2 <= t.nodes[g].level :: HasWork(m, t, g)
  }

  lemma {:induction false} KidToward(t: Tree, g: Ptr, leaf: Ptr) returns (c: Ptr)
    requires Valid(t) && leaf in t.nodes && Above(t, g, leaf) && g != leaf
    ensures IsKid(t, g, c) && c != t.root && Above(t, c, leaf)
    decreases t.nodes[leaf].level
  {
    if ParentOf(t, leaf) == g {
      c := leaf;
    } else {
      c := KidToward(t, g, ParentOf(t, leaf));
    }
  }

  lemma {:induction false} WorkBelowYields(m: Mem, t: Tree, x: Ptr)
    requires Represents(m, t) && InnerGroupsWork(m, t)
    requires x in t.nodes && 1 <= t.nodes[x].level && HasWork(m, t, x)
    ensures Yields(m, t, x)
    decreases t.depth - t.nodes[x].level
  {
    hide ResumeChild;
    assert NodeOk(t, x) && Holds(m, t, x);
    var leaf :| IsLeaf(t, leaf) && Runnable(m, leaf) && Above(t, x, leaf);
    if x in t.kids {
      var k := KidToward(t, x, leaf);
      assert Holds(m, t, k);
      assert Runnable(m, k) by {
        if k !in t.kids { LeafAboveOnlyItself(t, k, leaf); }
      }
      ResumeIsFair(m, t, x);
      var c := ResumeChild(m, x);
      KidIsNotRoot(t, x, c);
      assert NodeOk(t, c) && Holds(m, t, c);
      if c !in t.kids {
        assert Above(t, c, c);
      }
      assert HasWork(m, t, c);
      WorkBelowYields(m, t, c);
    } else {
      LeafAboveOnlyItself(t, x, leaf);
    }
  }

  lemma {:induction false} LeafAboveOnlyItself(t: Tree, x: Ptr, n: Ptr)
    requires Valid(t) && IsLeaf(t, x) && n in t.nodes && Above(t, x, n)
    ensures x == n
    decreases t.nodes[n].level
  {
    if x != n {
      LeafAboveOnlyItself(t, x, ParentOf(t, n));
    }
  }

  lemma WorkFrame(m: Mem, m': Mem, t: Tree)
    requires Valid(t) && Stepped(m, m', t)
    ensures forall x :: HasWork(m', t, x) <==> HasWork(m, t, x)
    ensures InnerGroupsWork(m, t) ==> InnerGroupsWork(m', t)
  {
    hide Above;
    forall x ensures Runnable(m', x) == Runnable(m, x) {
      SteppedRuns(m, m', t, x);
    }
  }

  /** If no group inside a group is out of work (in particular, if groups are not nested at
      all), the CPU goes idle only when no leaf in the tree can run. */
  lemma WorkIsConserved(k: State, t: Tree, dead: seq<Ptr>)
    requires WellFormed(k, t, dead) && InnerGroupsWork(k.mem, t)
    ensures ScheduleNext(k).1 == NULL <==> forall leaf | IsLeaf(t, leaf) :: !Runnable(k.mem, leaf)
  {
    hide PickNextLeaf, Yields, HasWork, NoKidYields, InnerGroupsWork;
    var limit := WalkLimit(k.nodes);
    if ScheduleNext(k).1 == NULL {
      ScheduleNullIsPickNull(k, t, dead);
      PickIffYields(k.mem, t, k.current, limit);
      SearchBegins(k.mem, t, k.current, limit);
      var (m0, g) := SearchFrom(k.mem, t.root, k.current, limit);
      WorkFrame(k.mem, m0, t);
      RootIsAbove(t, g);
      forall leaf | IsLeaf(t, leaf) ensures !Runnable(k.mem, leaf) {
        IdleHasNoLeaf(k.mem, m0, t, leaf);
      }
    } else {
      ScheduleIsSound(k, t, dead);
      ScheduledWasRunnable(k, t, dead);
    }
  }

  /** Some child of g, or of an ancestor of g, has a resume chain that ends in a runnable
      leaf. */
  ghost predicate WithinReach(m: Mem, t: Tree, g: Ptr)
    requires Valid(t) && g in t.nodes
  {
    exists h :: Above(t, h, g) && !NoKidYields(m, t, h)
  }

  /** Exactly when no work is hidden: a dispatch that finds nobody means nobody can run, if
      and only if nobody can run, or the current leaf stays, or a resume chain in reach of
      the search yields. */
  lemma WorkIsHiddenExactly(k: State, t: Tree, dead: seq<Ptr>)
    requires WellFormed(k, t, dead)
    ensures Valid(t) && SearchFrom(k.mem, t.root, k.current, WalkLimit(k.nodes)).1 in t.nodes
    ensures var limit := WalkLimit(k.nodes);
            var (m0, g) := SearchFrom(k.mem, t.root, k.current, limit);
            var allIdle := forall leaf | IsLeaf(t, leaf) :: !Runnable(k.mem, leaf);
            (ScheduleNext(k).1 == NULL ==> allIdle)
            <==> allIdle || Stays(k.mem, k.current, limit) || WithinReach(m0, t, g)
  {
    hide PickNextLeaf, Yields, NoKidYields, WellFormed, SearchFrom, Stays, ScheduleNext;
    ScheduleNullIsPickNull(k, t, dead);
    PickIffYields(k.mem, t, k.current, WalkLimit(k.nodes));
  }

  lemma IdleHasNoLeaf(m: Mem, m0: Mem, t: Tree, leaf: Ptr)
    requires Represents(m0, t) && Stepped(m, m0, t) && InnerGroupsWork(m0, t)
    requires NoKidYields(m0, t, t.root) && IsLeaf(t, leaf)
    ensures !Runnable(m, leaf)
  {
    SteppedRuns(m, m0, t, leaf);
    RootIsAbove(t, leaf);
    var c := KidToward(t, t.root, leaf);
    assert NodeOk(t, c) && !Yields(m0, t, c);
    if HasWork(m0, t, c) {
      WorkBelowYields(m0, t, c);
    }
  }

  lemma ScheduleNullIsPickNull(k: State, t: Tree, dead: seq<Ptr>)
    requires WellFormed(k, t, dead)
    ensures k.current == NULL || IsLeaf(t, k.current)
    ensures Represents(k.mem, t) && t.depth <= WalkLimit(k.nodes)
    ensures ScheduleNext(k).1 == NULL <==> PickNextLeaf(k.mem, t.root, k.current, WalkLimit(k.nodes)).1 == NULL
  {
    hide PickNextLeaf;
    if k.current != NULL {
      NextInMemory(k.mem, t, k.current);
    }
    PickOffers(k.mem, t, k.current, WalkLimit(k.nodes));
    var (m, next) := PickNextLeaf(k.mem, t.root, k.current, WalkLimit(k.nodes));
    SteppedHolds(k.mem, m, t);
    if next != NULL {
      NextInMemory(m, t, next);
    }
  }

  lemma ScheduledWasRunnable(k: State, t: Tree, dead: seq<Ptr>)
    requires WellFormed(k, t, dead) && ScheduleNext(k).1 != NULL
    ensures exists leaf :: IsLeaf(t, leaf) && Runnable(k.mem, leaf)
  {
    hide PickNextLeaf;
    ScheduleNullIsPickNull(k, t, dead);
    PickOffers(k.mem, t, k.current, WalkLimit(k.nodes));
    var (m, next) := PickNextLeaf(k.mem, t.root, k.current, WalkLimit(k.nodes));
    SteppedRuns(k.mem, m, t, next);
    assert IsLeaf(t, next) && Runnable(k.mem, next);
  }
}
