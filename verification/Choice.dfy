/**
  Which leaf runs next beside blocked tasks and empty groups: who loses its place, where the
  search for the next leaf begins, and whom it names.
 */
module Choice {
  import opened RoundRobin
  import opened Tree
  import opened Memory
  import opened Dispatch
  import opened Climb
  import opened Rings
  import opened Soundness
  import opened Timeline
  import opened Conserve

  // ----- who loses its place

  /** n lies on the path from cur up to z, strictly below z, has spent its quantum, and somebody
      in its ring can run. */
  ghost predicate LosesPlace(m: Mem, t: Tree, cur: Ptr, z: Ptr, n: Ptr)
    requires Valid(t) && cur in t.nodes
  {
    && Above(t, n, cur) && n in t.nodes && n != t.root && n != z && Above(t, z, n)
    && Remaining(m, n) == 0
    && !NobodyRunsIn(m, t, ParentOf(t, n))
  }

  /** Each such node's parent now stands at the first runnable node after it; nothing else is
      written. */
  ghost predicate Retired(m: Mem, m': Mem, t: Tree, cur: Ptr, z: Ptr)
    requires Valid(t) && cur in t.nodes
  {
    && m'.Keys == m.Keys
    && (forall n {:trigger LosesPlace(m, t, cur, z, n)} | LosesPlace(m, t, cur, z, n) ::
          var c := Cursor(m', ParentOf(t, n));
          c != NULL && FirstAfter(m, t, n, c))
    && (forall x {:trigger m'[x]} | x in m ::
          m'[x] == m[x].(cursor := m'[x].cursor)
          && ((forall n | LosesPlace(m, t, cur, z, n) :: ParentOf(t, n) != x) ==> m'[x] == m[x]))
  }

  lemma RetireOneExact(m: Mem, t: Tree, n: Ptr)
    requires Represents(m, t) && n in t.nodes && n != t.root
    ensures n in m
    ensures var g, m' := ParentOf(t, n), RetireOne(m, n);
            && g in m && m'.Keys == m.Keys && (forall x | x in m && x != g :: m'[x] == m[x])
            && (if Remaining(m, n) == 0 && !NobodyRunsIn(m, t, g)
                then m'[g] == m[g].(cursor := m'[g].cursor) && m'[g].cursor != NULL && FirstAfter(m, t, n, m'[g].cursor)
                else m'[g] == m[g])
  {
    hide NextRunnable;
    NextInMemory(m, t, n);
    NextRunnableIsFirst(m, t, n);
    var g, next := ParentOf(t, n), NextRunnable(m, n);
    assert Holds(m, t, g);
    if next in m && next != NULL {
      NextInMemory(m, t, next);
    }
  }

  /** Cursors and quanta do not decide who runs first. */
  lemma FirstAfterFrame(m: Mem, m': Mem, t: Tree)
    requires Valid(t) && Stepped(m, m', t)
    ensures forall g :: NobodyRunsIn(m', t, g) <==> NobodyRunsIn(m, t, g)
    ensures forall x, r | x in t.nodes && x != t.root :: FirstAfter(m', t, x, r) <==> FirstAfter(m, t, x, r)
  {
    hide Stepped, Around, Gap;
    forall x ensures Runnable(m', x) == Runnable(m, x) {
      SteppedRuns(m, m', t, x);
    }
  }

  lemma NobodyBelowItself(m: Mem, t: Tree, n: Ptr, x: Ptr)
    requires Valid(t) && n in t.nodes
    ensures !LosesPlace(m, t, n, n, x)
  {
    if LosesPlace(m, t, n, n, x) {
      AboveLevel(t, x, n);
      AboveLevel(t, n, x);
    }
  }

  /** The path above n, one step further. */
  lemma LosesStep(m: Mem, m1: Mem, t: Tree, n: Ptr, z: Ptr, x: Ptr)
    requires Valid(t) && n in t.nodes && n != z && n != t.root && Above(t, z, n)
    requires Stepped(m, m1, t) && forall y | y in m :: m1[y].remaining == m[y].remaining
    ensures LosesPlace(m, t, n, z, x) <==>
              LosesPlace(m1, t, ParentOf(t, n), z, x)
              || (x == n && Remaining(m, n) == 0 && !NobodyRunsIn(m, t, ParentOf(t, n)))
    ensures LosesPlace(m1, t, ParentOf(t, n), z, x) ==> x != n && ParentOf(t, x) != ParentOf(t, n)
  {
    FirstAfterFrame(m, m1, t);
    assert Remaining(m1, x) == Remaining(m, x);
    if Above(t, x, ParentOf(t, n)) {
      AboveLevel(t, x, ParentOf(t, n));
    }
  }

  lemma RetireOneSteps(m: Mem, t: Tree, n: Ptr)
    requires Represents(m, t) && n in t.nodes && n != t.root
    ensures n in m && Represents(RetireOne(m, n), t) && Stepped(m, RetireOne(m, n), t)
    ensures forall y | y in m :: RetireOne(m, n)[y].remaining == m[y].remaining
  {
    hide FirstAfter;
    RetireOneExact(m, t, n);
    var g, m' := ParentOf(t, n), RetireOne(m, n);
    if m'[g] != m[g] {
      FirstIsKid(m, t, n, m'[g].cursor);
    }
    assert Stepped(m, m', t);
    SteppedHolds(m, m', t);
  }

  lemma FirstIsKid(m: Mem, t: Tree, x: Ptr, r: Ptr)
    requires Valid(t) && x in t.nodes && x != t.root && FirstAfter(m, t, x, r) && r != NULL
    ensures IsKid(t, ParentOf(t, x), r) && Runnable(m, r)
  {
  }

  /** Every spent node on the path below z loses its place to the first runnable node after it,
      blocked neighbours or not, and nobody else does. */
  lemma {:induction false} RetireExact(m: Mem, t: Tree, n: Ptr, z: Ptr, budget: nat)
    requires Represents(m, t) && n in t.nodes && Above(t, z, n) && z in t.nodes
    requires t.nodes[n].level <= t.nodes[z].level + budget
    ensures Retired(m, RetireSpent(m, n, z, budget), t, n, z)
    decreases budget
  {
    hide FirstAfter, LosesPlace, NobodyRunsIn, RetireOne, Represents;
    assert Valid(t) && n in m by { KindKnown(m, t, n); }
    if n == z {
      forall x ensures !LosesPlace(m, t, n, z, x) {
        NobodyBelowItself(m, t, n, x);
      }
    } else {
      AboveLevel(t, z, n);
      assert n != t.root;
      var g, m1 := ParentOf(t, n), RetireOne(m, n);
      RetireOneExact(m, t, n);
      RetireOneSteps(m, t, n);
      assert m[n].parent == g by { NextInMemory(m, t, n); }
      RetireExact(m1, t, g, z, budget - 1);
      RetiredStep(m, m1, RetireSpent(m1, g, z, budget - 1), t, n, z);
    }
  }

  lemma RetiredStep(m: Mem, m1: Mem, m': Mem, t: Tree, n: Ptr, z: Ptr)
    requires Valid(t) && n in t.nodes && n != z && n != t.root && Above(t, z, n)
    requires Stepped(m, m1, t) && forall y | y in m :: m1[y].remaining == m[y].remaining
    requires var g := ParentOf(t, n);
             && g in m && m1.Keys == m.Keys && (forall x | x in m && x != g :: m1[x] == m[x])
             && (if Remaining(m, n) == 0 && !NobodyRunsIn(m, t, g)
                 then m1[g] == m[g].(cursor := m1[g].cursor) && m1[g].cursor != NULL && FirstAfter(m, t, n, m1[g].cursor)
                 else m1[g] == m[g])
             && Retired(m1, m', t, g, z)
    ensures Retired(m, m', t, n, z)
  {
    hide FirstAfter, NobodyRunsIn, LosesPlace, Stepped;
    var g := ParentOf(t, n);
    FirstAfterFrame(m, m1, t);
    forall x ensures LosesPlace(m, t, n, z, x) <==>
                       LosesPlace(m1, t, g, z, x) || (x == n && Remaining(m, n) == 0 && !NobodyRunsIn(m, t, g))
             ensures LosesPlace(m1, t, g, z, x) ==> x in t.nodes && x != t.root && x != n && ParentOf(t, x) != g
    {
      LosesStep(m, m1, t, n, z, x);
      if LosesPlace(m1, t, g, z, x) {
        LoserKnown(m1, t, g, z, x);
      }
    }
    assert m'[g] == m1[g];
    forall x | LosesPlace(m, t, n, z, x)
      ensures x in t.nodes && x != t.root
      ensures Cursor(m', ParentOf(t, x)) != NULL && FirstAfter(m, t, x, Cursor(m', ParentOf(t, x)))
    {
      if x != n {
        assert LosesPlace(m1, t, g, z, x);
      }
    }
    forall x | x in m && forall y | LosesPlace(m, t, n, z, y) :: y in t.nodes && y != t.root && ParentOf(t, y) != x ensures m'[x] == m[x] {
      forall y | LosesPlace(m1, t, g, z, y) ensures y in t.nodes && y != t.root && ParentOf(t, y) != x {
        assert LosesPlace(m, t, n, z, y);
      }
      if x == g {
        assert !LosesPlace(m, t, n, z, n);
      }
    }
  }

  lemma LoserKnown(m: Mem, t: Tree, cur: Ptr, z: Ptr, n: Ptr)
    requires Valid(t) && cur in t.nodes && LosesPlace(m, t, cur, z, n)
    ensures n in t.nodes && n != t.root
  {
  }

  // ----- going down

  /** Where the resume chain from x ends. */
  ghost function ChainLeaf(m: Mem, t: Tree, x: Ptr): (leaf: Ptr)
    requires Valid(t) && x in t.nodes && Yields(m, t, x)
    ensures IsLeaf(t, leaf) && Above(t, x, leaf) && Runnable(m, leaf)
    decreases t.depth - t.nodes[x].level
  {
    assert NodeOk(t, x);
    if x !in t.kids then x
    else
      var c := ResumeChild(m, x);
      KidIsNotRoot(t, x, c);
      assert NodeOk(t, c);
      var leaf := ChainLeaf(m, t, c);
      AboveTrans(t, x, c, leaf);
      leaf
  }

  lemma {:induction false} ChainLeafFrame(m: Mem, m': Mem, t: Tree, x: Ptr)
    requires Represents(m, t) && x in t.nodes && SameTargets(m, m', t) && Yields(m, t, x)
    ensures Yields(m', t, x) && ChainLeaf(m', t, x) == ChainLeaf(m, t, x)
    decreases t.depth - t.nodes[x].level
  {
    hide ResumeChild;
    assert NodeOk(t, x);
    YieldsFrame(m, m', t, x);
    if x in t.kids {
      var c := ResumeChild(m, x);
      assert ResumeChild(m', x) == c;
      KidIsNotRoot(t, x, c);
      assert NodeOk(t, c);
      ChainLeafFrame(m, m', t, c);
    }
  }

  /** Only nodes at or below p are written. */
  ghost predicate WrittenBelow(m: Mem, m': Mem, t: Tree, p: Ptr)
    requires Valid(t)
  {
    m'.Keys == m.Keys
    && forall x {:trigger m'[x]} | x in m && m'[x] != m[x] :: x in t.nodes && Above(t, p, x)
  }

  lemma WrittenTrans(m: Mem, m1: Mem, m2: Mem, t: Tree, p: Ptr, q: Ptr)
    requires Valid(t) && q in t.nodes && Above(t, p, q)
    requires WrittenBelow(m, m1, t, p) && WrittenBelow(m1, m2, t, q)
    ensures WrittenBelow(m, m2, t, p)
  {
    forall x | x in m && m2[x] != m[x] ensures x in t.nodes && Above(t, p, x) {
      if m2[x] != m1[x] {
        AboveTrans(t, p, q, x);
      }
    }
  }

  /** From p down to the leaf every group's cursor stands on the leaf's path. */
  ghost predicate PointsTo(m: Mem, t: Tree, p: Ptr, leaf: Ptr)
    requires Valid(t) && leaf in t.nodes
  {
    forall x | x in t.kids && x in t.nodes && Above(t, p, x) && Above(t, x, leaf) ::
      var c := Cursor(m, x);
      IsKid(t, x, c) && Above(t, c, leaf)
  }

  lemma {:induction false} DescendWritesBelow(m: Mem, t: Tree, p: Ptr, budget: nat)
    requires Represents(m, t) && p in t.nodes
    ensures WrittenBelow(m, DescendAndArm(m, p, budget).0, t, p)
    decreases budget
  {
    hide ResumeChild, Represents, Stepped, ArmIfNeeded, Above;
    KindKnown(m, t, p);
    ArmSteps(m, t, p);
    var armed := ArmIfNeeded(m, p);
    SteppedHolds(m, armed, t);
    ArmWritesBelow(m, t, p);
    if p in t.kids && budget > 0 {
      var c := ResumeChild(armed, p);
      ResumeIsFair(armed, t, p);
      if Runnable(armed, c) {
        KidIsNotRoot(t, p, c);
        CursorSteps(armed, t, p, c);
        var m1 := SetCursor(armed, p, c);
        SteppedHolds(armed, m1, t);
        DescendWritesBelow(m1, t, c, budget - 1);
        assert Above(t, p, c) by { KidBelow(t, p, c); }
        WrittenTrans(m, m1, DescendAndArm(m1, c, budget - 1).0, t, p, c);
      }
    }
  }

  lemma ArmWritesBelow(m: Mem, t: Tree, p: Ptr)
    requires Valid(t) && p in t.nodes
    ensures Above(t, p, p) && WrittenBelow(m, ArmIfNeeded(m, p), t, p)
  {
  }

  lemma KidBelow(t: Tree, p: Ptr, c: Ptr)
    requires Valid(t) && p in t.nodes && IsKid(t, p, c) && c != t.root
    ensures Above(t, p, c)
  {
  }

  lemma PointsThrough(m: Mem, t: Tree, p: Ptr, c: Ptr, leaf: Ptr)
    requires Valid(t) && leaf in t.nodes && p in t.nodes && c != t.root && IsKid(t, p, c)
    requires Cursor(m, p) == c && Above(t, c, leaf) && PointsTo(m, t, c, leaf)
    ensures PointsTo(m, t, p, leaf)
  {
    hide Cursor;
    forall x | x in t.kids && x in t.nodes && Above(t, p, x) && Above(t, x, leaf)
      ensures IsKid(t, x, Cursor(m, x)) && Above(t, Cursor(m, x), leaf)
    {
      AboveLevel(t, p, x);
      KidIsNotRoot(t, p, c);
      if x != p {
        AboveComparable(t, c, x, leaf);
      }
    }
  }

  /** A descent from p runs to the end of p's resume chain. */
  lemma {:induction false} DescendNames(m: Mem, t: Tree, p: Ptr, budget: nat)
    requires Represents(m, t) && p in t.nodes && t.depth <= t.nodes[p].level + budget && Yields(m, t, p)
    ensures var (m', leaf) := DescendAndArm(m, p, budget);
            leaf == ChainLeaf(m, t, p) && PointsTo(m', t, p, leaf)
    decreases budget
  {
    hide ResumeChild, Represents, Stepped, Holds;
    KindKnown(m, t, p);
    ArmKeepsTargets(m, t, p);
    var armed := ArmIfNeeded(m, p);
    ArmSteps(m, t, p);
    SteppedHolds(m, armed, t);
    SteppedRuns(m, armed, t, p);
    if p in t.kids {
      var c := ResumeChild(m, p);
      assert ResumeChild(armed, p) == c;
      SteppedRuns(m, armed, t, c);
      KidIsNotRoot(t, p, c);
      CursorKeepsTargets(armed, t, p);
      var m1 := SetCursor(armed, p, c);
      SteppedHolds(armed, m1, t) by { CursorSteps(armed, t, p, c); }
      KindKnown(m1, t, c);
      TargetsTrans(m, armed, m1, t);
      ChainLeafFrame(m, m1, t, c);
      DescendNames(m1, t, c, budget - 1);
      DescendWritesBelow(m1, t, c, budget - 1);
      var (m', leaf) := DescendAndArm(m1, c, budget - 1);
      assert Cursor(m', p) == c by {
        if Above(t, c, p) { AboveLevel(t, c, p); }
      }
      PointsThrough(m', t, p, c, leaf);
    } else {
      NoGroupBetween(t, p);
    }
  }

  lemma NoGroupBetween(t: Tree, leaf: Ptr)
    requires Valid(t) && IsLeaf(t, leaf)
    ensures forall x | x in t.nodes && Above(t, leaf, x) :: x == leaf
  {
    forall x | x in t.nodes && Above(t, leaf, x) ensures x == leaf {
      LeafAboveOnlyItself(t, leaf, x);
    }
  }

  // ----- handing the turn on

  /** Every group but g would resume where it would have. */
  ghost predicate TargetsBut(m: Mem, m': Mem, t: Tree, g: Ptr) {
    && Stepped(m, m', t)
    && forall h {:trigger ResumeChild(m', h)} | h in t.kids && h != g :: ResumeChild(m', h) == ResumeChild(m, h)
  }

  /** The turn in h's ring has gone to c: the leaf is the end of c's resume chain, the cursors
      from h down to the leaf stand on its path, no other group has lost its place, and nothing
      outside h is written. */
  ghost predicate Served(m: Mem, m': Mem, t: Tree, h: Ptr, c: Ptr, leaf: Ptr)
    requires Valid(t)
  {
    && IsKid(t, h, c) && Yields(m, t, c) && leaf == ChainLeaf(m, t, c)
    && Cursor(m', h) == c && PointsTo(m', t, h, leaf)
    && TargetsBut(m, m', t, h) && WrittenBelow(m, m', t, h)
  }

  lemma ServedAfter(m: Mem, m1: Mem, m': Mem, t: Tree, g: Ptr, h: Ptr, c: Ptr, leaf: Ptr)
    requires Represents(m, t) && SameTargets(m, m1, t) && WrittenBelow(m, m1, t, g)
    requires h in t.nodes && g in t.nodes && Above(t, h, g) && Served(m1, m', t, h, c, leaf)
    ensures Served(m, m', t, h, c, leaf)
  {
    hide ResumeChild, Yields, ChainLeaf, PointsTo;
    YieldsFrame(m, m1, t, c);
    ChainLeafFrame(m, m1, t, c);
    SteppedTrans(m, m1, m', t);
    forall k | k in t.kids && k != h ensures ResumeChild(m', k) == ResumeChild(m, k) {
      assert ResumeChild(m1, k) == ResumeChild(m, k);
    }
    forall x | x in m && m'[x] != m[x] ensures x in t.nodes && Above(t, h, x) {
      if m1[x] != m[x] {
        AboveTrans(t, h, g, x);
      }
    }
  }

  lemma ServedHere(m: Mem, t: Tree, g: Ptr, c: Ptr, limit: nat)
    requires Represents(m, t) && g in t.kids && g in t.nodes && IsKid(t, g, c) && Yields(m, t, c) && t.depth <= limit
    ensures var (tried, leaf) := DescendAndArm(m, c, limit);
            leaf != NULL && g in tried && Served(m, SetCursor(tried, g, c), t, g, c, leaf)
  {
    hide ResumeChild, Yields, DescendAndArm, ChainLeaf;
    KidIsNotRoot(t, g, c);
    DescendNames(m, t, c, limit);
    DescendWritesBelow(m, t, c, limit);
    DescendIffYields(m, t, c, limit);
    var (tried, leaf) := DescendAndArm(m, c, limit);
    TargetsHold(m, tried, t);
    assert g in tried by { KindKnown(tried, t, g); }
    var m' := SetCursor(tried, g, c);
    CursorSteps(tried, t, g, c);
    SteppedTrans(m, tried, m', t);
    forall h | h in t.kids && h != g ensures ResumeChild(m', h) == ResumeChild(m, h) {
      ResumeFrame(tried, m', t, h) by { KindKnown(tried, t, g); }
      assert ResumeChild(tried, h) == ResumeChild(m, h);
    }
    KidBelow(t, g, c);
    WrittenSet(m, tried, t, g, c);
    PointsStill(tried, m', t, g, c, leaf);
    PointsThrough(m', t, g, c, leaf);
  }

  lemma WrittenSet(m: Mem, m1: Mem, t: Tree, g: Ptr, c: Ptr)
    requires Valid(t) && g in t.nodes && g in m1 && c in t.nodes && Above(t, g, c) && WrittenBelow(m, m1, t, c)
    ensures WrittenBelow(m, SetCursor(m1, g, c), t, g)
  {
    forall x | x in m && m1[x] != m[x] ensures x in t.nodes && Above(t, g, x) {
      AboveTrans(t, g, c, x);
    }
    assert Above(t, g, g);
  }

  lemma PointsStill(m: Mem, m': Mem, t: Tree, g: Ptr, c: Ptr, leaf: Ptr)
    requires Valid(t) && leaf in t.nodes && g in t.nodes && c != t.root && IsKid(t, g, c) && g in m && m' == SetCursor(m, g, c)
    requires PointsTo(m, t, c, leaf)
    ensures PointsTo(m', t, c, leaf)
  {
    KidIsNotRoot(t, g, c);
    forall x | x in t.nodes && Above(t, c, x) ensures x != g {
      AboveLevel(t, c, x);
    }
  }

  /** The scan of a ring serves the first child, from where it starts, whose resume chain
      yields. */
  lemma {:induction false} ScanNames(m: Mem, t: Tree, g: Ptr, start: Ptr, d: nat, limit: nat, budget: nat) returns (e: nat)
    requires Represents(m, t) && g in t.kids && g in t.nodes && t.depth <= limit
    requires IsKid(t, g, start) && start != t.root && d < RingSize(t, start) <= d + budget + 1
    requires SomeoneYields(m, t, start, d)
    ensures d <= e < RingSize(t, start) && Yields(m, t, Around(t, start, e))
    ensures forall i: nat {:trigger Around(t, start, i)} | d <= i < e :: !Yields(m, t, Around(t, start, i))
    ensures var (m', leaf) := ScanRing(m, g, start, Around(t, start, d), limit, budget);
            leaf != NULL && Served(m, m', t, g, Around(t, start, e), leaf)
    decreases budget
  {
    hide Yields, DescendAndArm, ResumeChild, SameTargets, Represents, SomeoneYields, Served, WrittenBelow;
    ScanStandsAt(m, t, g, start, d);
    var p := Around(t, start, d);
    var (tried, leaf) := if Runnable(m, p) then DescendAndArm(m, p, limit) else (m, NULL);
    if Yields(m, t, p) {
      e := d;
      YieldersRun(m, t, p);
      ServedHere(m, t, g, p, limit);
    } else {
      DescendIffYields(m, t, p, limit);
      DescendWritesBelow(m, t, p, limit);
      NotAskedTwice(m, t);
      assert leaf == NULL && SameTargets(m, tried, t);
      TriedWritesBelow(m, tried, t, g, p);
      TargetsHold(m, tried, t);
      NextInMemory(tried, t, p);
      NextInMemory(tried, t, After(t, p));
      assert Around(t, start, d + 1) == After(t, p);
      FullLap(t, start, d + 1);
      if d + 1 == RingSize(t, start) {
        NobodyLeft(m, t, start, d);
        assert false;
      } else {
        ScanShift(m, tried, t, start, d);
        e := ScanNames(tried, t, g, start, d + 1, limit, budget - 1);
        forall i: nat ensures Yields(tried, t, Around(t, start, i)) == Yields(m, t, Around(t, start, i)) {
          YieldsFrame(m, tried, t, Around(t, start, i));
        }
        assert Above(t, g, g);
        var (m', leaf') := ScanRing(tried, g, start, Around(t, start, d + 1), limit, budget - 1);
        ServedAfter(m, tried, m', t, g, g, Around(t, start, e), leaf');
      }
    }
  }

  lemma TriedWritesBelow(m: Mem, tried: Mem, t: Tree, g: Ptr, p: Ptr)
    requires Valid(t) && g in t.nodes && IsKid(t, g, p) && p != t.root
    requires tried == m || WrittenBelow(m, tried, t, p)
    ensures WrittenBelow(m, tried, t, g)
  {
    if tried != m {
      KidBelow(t, g, p);
      forall x | x in m && tried[x] != m[x] ensures x in t.nodes && Above(t, g, x) {
        AboveTrans(t, g, p, x);
      }
    }
  }

  lemma {:induction false} ScanWritesBelow(m: Mem, t: Tree, g: Ptr, start: Ptr, p: Ptr, limit: nat, budget: nat)
    requires Represents(m, t) && g in t.kids && g in t.nodes && IsKid(t, g, p)
    ensures WrittenBelow(m, ScanRing(m, g, start, p, limit, budget).0, t, g)
    decreases budget
  {
    hide DescendAndArm, Represents, Stepped;
    KindKnown(m, t, g);
    KidIsNotRoot(t, g, p);
    DescendWritesBelow(m, t, p, limit);
    DescendOffers(m, t, p, limit);
    var (tried, leaf) := if Runnable(m, p) then DescendAndArm(m, p, limit) else (m, NULL);
    TriedWritesBelow(m, tried, t, g, p);
    if leaf != NULL {
      WrittenSet(m, tried, t, g, g) by { assert Above(t, g, g); }
    } else {
      SteppedHolds(m, tried, t) by { SteppedSelf(m, t); }
      NextInMemory(tried, t, p);
      var q := Next(tried, p);
      if !(!Linked(tried, q) || q == start || budget == 0) {
        ScanWritesBelow(tried, t, g, start, q, limit, budget - 1);
        WrittenTrans(m, tried, ScanRing(tried, g, start, q, limit, budget - 1).0, t, g, g) by { assert Above(t, g, g); }
      }
    }
  }

  lemma SteppedSelf(m: Mem, t: Tree)
    ensures Stepped(m, m, t)
  {
  }

  /** c is the first child of h behind its cursor whose resume chain yields; the child at the
      cursor itself comes last. */
  ghost predicate TakesTurn(m: Mem, t: Tree, h: Ptr, c: Ptr)
    requires Valid(t)
  {
    var cur := Cursor(m, h);
    && h in t.kids
    && IsKid(t, h, c) && c != t.root && ParentOf(t, c) == h
    && IsKid(t, h, cur) && cur != t.root && ParentOf(t, cur) == h
    && Yields(m, t, c)
    && forall i: nat {:trigger Around(t, cur, i)} | 1 <= i < Gap(t, cur, c) :: !Yields(m, t, Around(t, cur, i))
  }

  /** Searching from g upward: no ring below h, from g's on, has a child that yields, and in h's
      ring the turn goes to c. */
  ghost predicate Found(m: Mem, m': Mem, t: Tree, g: Ptr, h: Ptr, c: Ptr, leaf: Ptr)
    requires Valid(t) && g in t.nodes
  {
    && Above(t, h, g)
    && (forall k | Above(t, k, g) && k in t.nodes && Above(t, h, k) && k != h :: NoKidYields(m, t, k))
    && TakesTurn(m, t, h, c)
    && Served(m, m', t, h, c, leaf)
  }

  lemma GapOf(t: Tree, x: Ptr, d: nat)
    requires Valid(t) && x in t.nodes && x != t.root && 1 <= d <= RingSize(t, x)
    ensures Gap(t, x, Around(t, x, d)) == d
  {
    AroundPos(t, x, d);
  }

  /** One ring: somebody yields, and the turn goes to the first that does. */
  lemma RingNames(m: Mem, t: Tree, g: Ptr, limit: nat) returns (c: Ptr)
    requires Represents(m, t) && g in t.kids && g in t.nodes && t.depth <= limit && Linked(m, Head(m, g))
    requires ScanRing(m, g, ScanStart(m, g), ScanStart(m, g), limit, |m|).1 != NULL
    ensures TakesTurn(m, t, g, c)
    ensures var (m', leaf) := ScanRing(m, g, ScanStart(m, g), ScanStart(m, g), limit, |m|);
            Served(m, m', t, g, c, leaf)
  {
    hide ScanRing, Yields, Served, Gap, Stepped, SameTargets;
    ScanStartIsKid(m, t, g);
    var cur, start := Cursor(m, g), ScanStart(m, g);
    KidIsNotRoot(t, g, start);
    KidIsNotRoot(t, g, cur);
    RingFits(m, t, start);
    assert Around(t, start, 0) == start;
    ScanIffYields(m, t, g, start, 0, limit, |m|);
    var e := ScanNames(m, t, g, start, 0, limit, |m|);
    AroundShift(t, cur, e);
    GapOf(t, cur, e + 1);
    c := Around(t, start, e);
    forall i: nat | 1 <= i < Gap(t, cur, c) ensures !Yields(m, t, Around(t, cur, i)) {
      AroundShift(t, cur, i - 1);
    }
  }

  lemma FoundHigher(m: Mem, tried: Mem, m': Mem, t: Tree, g: Ptr, h: Ptr, c: Ptr, leaf: Ptr)
    requires Represents(m, t) && g in t.nodes && g != t.root
    requires SameTargets(m, tried, t) && WrittenBelow(m, tried, t, g) && NoKidYields(m, t, g)
    requires Found(tried, m', t, ParentOf(t, g), h, c, leaf)
    ensures Found(m, m', t, g, h, c, leaf)
  {
    hide Yields, NoKidYields, Served, SameTargets, Gap;
    var up := ParentOf(t, g);
    AboveLevel(t, h, up);
    ServedAfter(m, tried, m', t, g, h, c, leaf);
    forall k | Above(t, k, g) && k in t.nodes && Above(t, h, k) && k != h ensures NoKidYields(m, t, k) {
      if k != g {
        NoKidFrame(m, tried, t, k);
      }
    }
    assert Cursor(tried, h) == Cursor(m, h) by {
      if Above(t, g, h) { AboveLevel(t, g, h); }
    }
    forall x | x in t.nodes ensures Yields(tried, t, x) == Yields(m, t, x) {
      YieldsFrame(m, tried, t, x);
    }
  }

  lemma {:induction false} AdvanceNames(m: Mem, t: Tree, g: Ptr, limit: nat, budget: nat) returns (h: Ptr, c: Ptr)
    requires Represents(m, t) && g in t.kids && g in t.nodes && t.depth <= limit && t.nodes[g].level < budget
    requires AdvanceFrom(m, g, limit, budget).1 != NULL
    ensures var (m', leaf) := AdvanceFrom(m, g, limit, budget);
            Found(m, m', t, g, h, c, leaf)
    decreases budget
  {
    hide ScanRing, Yields, NoKidYields, SameTargets, Served, WrittenBelow, TakesTurn;
    KindKnown(m, t, g);
    var linked := Linked(m, Head(m, g));
    var (tried, leaf) :=
      if linked then ScanRing(m, g, ScanStart(m, g), ScanStart(m, g), limit, |m|) else (m, NULL);
    if leaf != NULL {
      h := g;
      c := RingNames(m, t, g, limit);
      OnlyItself(t, g);
    } else {
      OneRing(m, t, g, limit);
      TargetsHold(m, tried, t);
      assert Holds(tried, t, g);
      assert WrittenBelow(m, tried, t, g) by {
        if linked {
          ScanStartIsKid(m, t, g);
          ScanWritesBelow(m, t, g, ScanStart(m, g), ScanStart(m, g), limit, |m|);
        } else {
          NothingWritten(m, t, g);
        }
      }
      if g == t.root {
        TopOfTheTree(tried, t, limit, budget - 1);
        assert false;
      } else {
        h, c := AdvanceNames(tried, t, ParentOf(t, g), limit, budget - 1);
        FoundHigher(m, tried, AdvanceFrom(m, g, limit, budget).0, t, g, h, c, AdvanceFrom(m, g, limit, budget).1);
      }
    }
  }

  lemma TopOfTheTree(m: Mem, t: Tree, limit: nat, budget: nat)
    requires Represents(m, t) && t.root in t.nodes
    ensures AdvanceFrom(m, Parent(m, t.root), limit, budget) == (m, NULL)
  {
    assert Holds(m, t, t.root) && NodeOk(t, t.root);
  }

  lemma NothingWritten(m: Mem, t: Tree, g: Ptr)
    requires Valid(t)
    ensures WrittenBelow(m, m, t, g)
  {
  }

  lemma OnlyItself(t: Tree, g: Ptr)
    requires Valid(t) && g in t.nodes
    ensures Above(t, g, g)
    ensures forall k | Above(t, k, g) && k in t.nodes && Above(t, g, k) :: k == g
  {
    forall k | Above(t, k, g) && k in t.nodes && Above(t, g, k) ensures k == g {
      AboveLevel(t, k, g);
      AboveLevel(t, g, k);
    }
  }

  /** A descent from start: nobody if its resume chain does not yield, else the end of that chain,
      with the cursors on the way standing on the leaf's path and every group resuming where it
      would have. */
  ghost predicate Descended(m: Mem, m': Mem, t: Tree, start: Ptr, leaf: Ptr)
    requires Valid(t)
  {
    if start !in t.nodes then leaf == NULL && m' == m
    else
      && SameTargets(m, m', t) && WrittenBelow(m, m', t, start)
      && (leaf != NULL <==> Yields(m, t, start))
      && (leaf != NULL ==> leaf == ChainLeaf(m, t, start) && PointsTo(m', t, start, leaf))
  }

  lemma DescendDone(m: Mem, t: Tree, start: Ptr, limit: nat)
    requires Represents(m, t) && (start == NULL || start in t.nodes)
    ensures var (m', leaf) := DescendAndArm(m, start, limit);
            t.depth <= limit ==> Descended(m, m', t, start, leaf)
  {
    hide DescendAndArm;
    if start == NULL {
      assert NULL !in m && NULL !in t.nodes;
      NullOffersNothing(m, start, limit);
    } else if t.depth <= limit {
      DescendIffYields(m, t, start, limit);
      DescendWritesBelow(m, t, start, limit);
      if Yields(m, t, start) {
        DescendNames(m, t, start, limit);
      }
    }
  }

  /** Handing the turn on from g: to the first child that yields behind the cursor of the lowest
      ring, from g's upward, that has one; to nobody if none has. */
  ghost predicate Advanced(m: Mem, m': Mem, t: Tree, g: Ptr, h: Ptr, c: Ptr, leaf: Ptr)
    requires Valid(t) && g in t.nodes
  {
    if leaf == NULL then forall k | Above(t, k, g) :: NoKidYields(m, t, k)
    else Found(m, m', t, g, h, c, leaf)
  }

  lemma AdvanceDone(m: Mem, t: Tree, g: Ptr, limit: nat) returns (h: Ptr, c: Ptr)
    requires Represents(m, t) && g in t.kids && g in t.nodes
    ensures var (m', leaf) := AdvanceFrom(m, g, limit, limit);
            t.depth <= limit ==> Advanced(m, m', t, g, h, c, leaf)
  {
    hide AdvanceFrom, Found, NoKidYields;
    h, c := NULL, NULL;
    KindKnown(m, t, g);
    if t.depth <= limit {
      AdvanceIffYields(m, t, g, limit, limit);
      if AdvanceFrom(m, g, limit, limit).1 != NULL {
        h, c := AdvanceNames(m, t, g, limit, limit);
      }
    }
  }

  // ----- the whole choice

  /** Where the search for the next leaf begins: at the root as things are, or, if something on
      the current leaf's path is spent, in the ring of the outermost such node (at the root if
      that is the root itself), once the spent nodes below it have lost their places. */
  ghost predicate SearchStarts(m: Mem, m0: Mem, t: Tree, cur: Ptr, z: Ptr, g: Ptr)
    requires Valid(t)
  {
    if cur == NULL || z == NULL then m0 == m && g == t.root && (cur in t.nodes ==> IsOutermost(m, t, cur, NULL, z))
    else
      && cur in t.nodes && z in t.nodes && IsOutermost(m, t, cur, NULL, z)
      && Retired(m, m0, t, cur, z)
      && g == if z == t.root then t.root else ParentOf(t, z)
  }

  /** How a search went: from z and g, over memory m0, to the child c of h. */
  datatype Search = Search(z: Ptr, m0: Mem, g: Ptr, h: Ptr, c: Ptr)

  /** The current leaf stays while it can run and nothing on its path is spent; with no current
      leaf the root's own resume chain goes first; otherwise the search decides. */
  ghost predicate Chosen(m: Mem, m': Mem, t: Tree, cur: Ptr, leaf: Ptr, s: Search)
    requires Valid(t)
  {
    if KeepsCpu(m, t, cur) then leaf == cur && m' == m
    else if cur == NULL && RootYields(m, t) then
      var c := ResumeChild(m, t.root);
      leaf == ChainLeaf(m, t, c) && PointsTo(m', t, c, leaf) && SameTargets(m, m', t) && WrittenBelow(m, m', t, c)
    else
      && SearchStarts(m, s.m0, t, cur, s.z, s.g) && s.g in t.nodes
      && Found(s.m0, m', t, s.g, s.h, s.c, leaf)
  }

  ghost predicate KeepsCpu(m: Mem, t: Tree, cur: Ptr)
    requires Valid(t)
  {
    cur in t.nodes && Runnable(m, cur) && forall x | Above(t, x, cur) :: Remaining(m, x) > 0
  }

  ghost predicate RootYields(m: Mem, t: Tree)
    requires Valid(t)
  {
    var c := ResumeChild(m, t.root);
    IsKid(t, t.root, c) && Yields(m, t, c)
  }

  /** Nobody: the current leaf does not stay, and no ring from the search's start upward has a
      child that yields. */
  ghost predicate NobodyFound(m: Mem, t: Tree, cur: Ptr, s: Search)
    requires Valid(t)
  {
    && !KeepsCpu(m, t, cur)
    && SearchStarts(m, s.m0, t, cur, s.z, s.g) && s.g in t.nodes
    && forall h | Above(t, h, s.g) :: NoKidYields(s.m0, t, h)
  }

  ghost predicate Decided(m: Mem, m': Mem, t: Tree, cur: Ptr, leaf: Ptr, s: Search)
    requires Valid(t)
  {
    if leaf != NULL then Chosen(m, m', t, cur, leaf, s) else NobodyFound(m, t, cur, s)
  }

  lemma IdleNames(m: Mem, t: Tree, limit: nat) returns (s: Search)
    requires Represents(m, t) && t.depth <= limit
    requires PickNextLeaf(m, t.root, NULL, limit).1 != NULL
    ensures var (m', leaf) := PickNextLeaf(m, t.root, NULL, limit);
            Chosen(m, m', t, NULL, leaf, s)
  {
    hide AdvanceFrom, DescendAndArm, ResumeChild, Yields, SameTargets, ChainLeaf, Found, WrittenBelow;
    KindKnown(m, t, t.root);
    ResumeIsFair(m, t, t.root);
    s := Search(NULL, m, t.root, NULL, NULL);
    var c := ResumeChild(m, t.root);
    var (tried, leaf) := DescendAndArm(m, c, limit);
    if c !in m {
      NullOffersNothing(m, c, limit);
      var h, c' := AdvanceNames(m, t, t.root, limit, limit);
      assert !IsKid(t, t.root, c) by {
        if IsKid(t, t.root, c) { KindKnown(m, t, c); }
      }
      s := Search(NULL, m, t.root, h, c');
    } else {
      KidIsNotRoot(t, t.root, c);
      DescendIffYields(m, t, c, limit);
      DescendWritesBelow(m, t, c, limit);
      if leaf != NULL {
        DescendNames(m, t, c, limit);
      } else {
        TargetsHold(m, tried, t);
        var h, c' := AdvanceNames(tried, t, t.root, limit, limit);
        FoundFromRoot(m, tried, PickNextLeaf(m, t.root, NULL, limit).0, t, c, h, c', PickNextLeaf(m, t.root, NULL, limit).1);
        s := Search(NULL, m, t.root, h, c');
      }
    }
  }

  lemma FoundFromRoot(m: Mem, tried: Mem, m': Mem, t: Tree, p: Ptr, h: Ptr, c: Ptr, leaf: Ptr)
    requires Represents(m, t) && t.root in t.nodes && IsKid(t, t.root, p) && p != t.root
    requires SameTargets(m, tried, t) && WrittenBelow(m, tried, t, p)
    requires Found(tried, m', t, t.root, h, c, leaf)
    ensures Found(m, m', t, t.root, h, c, leaf)
  {
    hide Yields, NoKidYields, Served, SameTargets, Gap;
    assert h == t.root;
    TriedWritesBelow(m, tried, t, t.root, p);
    ServedAfter(m, tried, m', t, t.root, h, c, leaf);
    OnlyItself(t, t.root);
    assert Cursor(tried, h) == Cursor(m, h) by {
      if Above(t, p, h) { AboveLevel(t, p, h); }
    }
    forall x | x in t.nodes ensures Yields(tried, t, x) == Yields(m, t, x) {
      YieldsFrame(m, tried, t, x);
    }
  }

  lemma SearchBegun(m: Mem, t: Tree, cur: Ptr, limit: nat)
    requires Represents(m, t) && t.depth <= limit && IsLeaf(t, cur)
    ensures var z, (m0, g) := OutermostExhausted(m, cur, NULL, limit), SearchFrom(m, t.root, cur, limit);
            SearchStarts(m, m0, t, cur, z, g) && g in t.nodes
    ensures KeepsCpu(m, t, cur) <==> Stays(m, cur, limit)
  {
    hide RetireSpent, OutermostExhausted, Retired;
    SearchBegins(m, t, cur, limit);
    RepresentsClimbs(m, t);
    KindKnown(m, t, cur);
    OutermostFound(m, t, cur, NULL, limit);
    var z := OutermostExhausted(m, cur, NULL, limit);
    if z != NULL {
      RetireExact(m, t, cur, z, limit + 1);
      RetireSteps(m, t, cur, z, limit + 1);
      var retired := RetireSpent(m, cur, z, limit + 1);
      SteppedHolds(m, retired, t);
      KindKnown(retired, t, z);
      if z != t.root {
        NextInMemory(retired, t, z);
        KindKnown(retired, t, ParentOf(t, z));
      }
    }
  }

  /** The leaf a dispatch names, in any state at all: it stays, or it is at the end of the first
      resume chain that yields behind the cursor of the lowest ring that has one, counting up
      from where the search starts. */
  lemma PickNames(m: Mem, t: Tree, cur: Ptr, limit: nat) returns (s: Search)
    requires Represents(m, t) && t.depth <= limit && (cur == NULL || IsLeaf(t, cur))
    ensures var (m', leaf) := PickNextLeaf(m, t.root, cur, limit);
            Decided(m, m', t, cur, leaf, s)
  {
    hide AdvanceFrom, DescendAndArm, ResumeChild, RetireSpent, OutermostExhausted, Retired, Found, NoKidYields, SearchStarts, Yields;
    var (m0, g) := SearchFrom(m, t.root, cur, limit);
    var z := if cur == NULL then NULL else OutermostExhausted(m, cur, NULL, limit);
    KindKnown(m, t, t.root);
    SearchBegins(m, t, cur, limit);
    s := Search(z, m0, g, NULL, NULL);
    if cur != NULL {
      SearchBegun(m, t, cur, limit);
      KindKnown(m, t, cur);
    } else {
      assert SearchStarts(m, m, t, NULL, NULL, t.root) by { StartsAtRoot(m, t); }
    }
    if PickNextLeaf(m, t.root, cur, limit).1 == NULL {
      PickIffYields(m, t, cur, limit);
    } else if cur == NULL {
      s := IdleNames(m, t, limit);
    } else if !KeepsCpu(m, t, cur) {
      var h, c := AdvanceNames(m0, t, g, limit, limit);
      s := Search(z, m0, g, h, c);
      LeafPick(m, t, cur, limit);
    }
  }

  lemma StartsAtRoot(m: Mem, t: Tree)
    requires Valid(t)
    ensures SearchStarts(m, m, t, NULL, NULL, t.root)
  {
  }

  lemma LeafPick(m: Mem, t: Tree, cur: Ptr, limit: nat)
    requires Represents(m, t) && t.depth <= limit && IsLeaf(t, cur)
    ensures PickNextLeaf(m, t.root, cur, limit) ==
              if Stays(m, cur, limit) then (m, cur)
              else var (m0, g) := SearchFrom(m, t.root, cur, limit); AdvanceFrom(m0, g, limit, limit)
  {
    hide AdvanceFrom, RetireSpent, OutermostExhausted;
    KindKnown(m, t, t.root);
    KindKnown(m, t, cur);
  }
}
