/**
  Rings as cyclic sequences: what the two ring walks find.
 */
module Rings {
  import opened Lists
  import opened RoundRobin
  import opened Tree
  import opened Memory
  import opened Dispatch

  ghost function RingSize(t: Tree, x: Ptr): (n: nat)
    requires Valid(t) && x in t.nodes && x != t.root
    ensures t.nodes[x].pos < n == |t.kids[ParentOf(t, x)]|
  {
    |t.kids[ParentOf(t, x)]|
  }

  /** The d-th successor of x in its ring. */
  ghost function Around(t: Tree, x: Ptr, d: nat): (y: Ptr)
    requires Valid(t) && x in t.nodes && x != t.root
    ensures y in t.nodes && y != t.root && ParentOf(t, y) == ParentOf(t, x)
  {
    if d == 0 then x else After(t, Around(t, x, d - 1))
  }

  lemma {:induction false} AroundShift(t: Tree, y: Ptr, d: nat)
    requires Valid(t) && y in t.nodes && y != t.root
    ensures Around(t, After(t, y), d) == Around(t, y, d + 1)
    decreases d
  {
    if d == 0 {
      assert Around(t, y, 1) == After(t, Around(t, y, 0));
    } else {
      AroundShift(t, y, d - 1);
    }
  }

  ghost function Wrap(i: nat, n: nat): nat { if i < n then i else i - n }

  lemma {:induction false} AroundPos(t: Tree, x: Ptr, d: nat)
    requires Valid(t) && x in t.nodes && x != t.root && d <= RingSize(t, x)
    ensures t.nodes[Around(t, x, d)].pos == Wrap(t.nodes[x].pos + d, RingSize(t, x))
  {
    var g := ParentOf(t, x);
    if d > 0 {
      AroundPos(t, x, d - 1);
      var y := Around(t, x, d - 1);
      assert KidOk(t, g, Succ(t.nodes[y].pos, |t.kids[g]|));
    }
  }

  /** How far y is ahead of x: between 1 and the size of the ring. */
  ghost function Gap(t: Tree, x: Ptr, y: Ptr): (d: nat)
    requires Valid(t) && x in t.nodes && y in t.nodes && x != t.root && y != t.root
    requires ParentOf(t, x) == ParentOf(t, y)
    ensures 1 <= d <= RingSize(t, x)
  {
    if t.nodes[x].pos < t.nodes[y].pos then t.nodes[y].pos - t.nodes[x].pos
    else t.nodes[y].pos + RingSize(t, x) - t.nodes[x].pos
  }

  lemma GapReaches(t: Tree, x: Ptr, y: Ptr)
    requires Valid(t) && x in t.nodes && y in t.nodes && x != t.root && y != t.root
    requires ParentOf(t, x) == ParentOf(t, y)
    ensures Around(t, x, Gap(t, x, y)) == y
  {
    AroundPos(t, x, Gap(t, x, y));
  }

  /** A whole lap leads back, and nothing shorter does. */
  lemma FullLap(t: Tree, x: Ptr, d: nat)
    requires Valid(t) && x in t.nodes && x != t.root && 1 <= d <= RingSize(t, x)
    ensures Around(t, x, d) == x <==> d == RingSize(t, x)
  {
    AroundPos(t, x, d);
    GapReaches(t, x, x);
  }

  lemma RingFits(m: Mem, t: Tree, x: Ptr)
    requires Represents(m, t) && x in t.nodes && x != t.root
    ensures RingSize(t, x) <= |m|
  {
    var g := ParentOf(t, x);
    forall i | 0 <= i < |t.kids[g]| ensures t.kids[g][i] in m && t.nodes[t.kids[g][i]].pos == i {
      assert KidOk(t, g, i) && Holds(m, t, t.kids[g][i]);
    }
    DistinctFits(t.kids[g], m);
  }

  ghost predicate NobodyRunsIn(m: Mem, t: Tree, g: Ptr) {
    forall y | IsKid(t, g, y) :: !Runnable(m, y)
  }

  /** r is the first runnable strict successor of x; x itself counts last; null when nobody
      in the ring can run. */
  ghost predicate FirstAfter(m: Mem, t: Tree, x: Ptr, r: Ptr)
    requires Valid(t) && x in t.nodes && x != t.root
  {
    || (r == NULL && NobodyRunsIn(m, t, ParentOf(t, x)))
    || (IsKid(t, ParentOf(t, x), r) && r != t.root && Runnable(m, r)
        && forall e | 1 <= e < Gap(t, x, r) :: !Runnable(m, Around(t, x, e)))
  }

  lemma NextInMemory(m: Mem, t: Tree, x: Ptr)
    requires Represents(m, t) && x in t.nodes && x != t.root
    ensures x in m && m[x].next == After(t, x) && After(t, x) in m && m[x].parent == ParentOf(t, x)
    ensures Linked(m, x)
  {
    assert Holds(m, t, x) && Holds(m, t, After(t, x));
  }

  lemma KidIsNotRoot(t: Tree, g: Ptr, y: Ptr)
    requires Valid(t) && g in t.nodes && IsKid(t, g, y)
    ensures y != t.root && ParentOf(t, y) == g
  {
    assert NodeOk(t, y);
  }

  /** Once everybody but x itself has been passed over, x decides. */
  lemma LapDone(m: Mem, t: Tree, x: Ptr)
    requires Valid(t) && x in t.nodes && x != t.root
    requires forall e | 1 <= e < RingSize(t, x) :: !Runnable(m, Around(t, x, e))
    ensures FirstAfter(m, t, x, if Runnable(m, x) then x else NULL)
  {
    forall y | IsKid(t, ParentOf(t, x), y) && y != x ensures !Runnable(m, y) {
      KidIsNotRoot(t, ParentOf(t, x), y);
      GapReaches(t, x, y);
      FullLap(t, x, Gap(t, x, y));
    }
  }

  lemma {:induction false} SkipFindsFirst(m: Mem, t: Tree, x: Ptr, d: nat, budget: nat)
    requires Represents(m, t) && x in t.nodes && x != t.root
    requires 1 <= d <= RingSize(t, x) <= d + budget
    requires d == RingSize(t, x) ==> d == 1
    requires forall e | 1 <= e < d :: !Runnable(m, Around(t, x, e))
    ensures FirstAfter(m, t, x, SkipBlocked(m, x, Around(t, x, d), budget))
    decreases budget
  {
    var p := Around(t, x, d);
    NextInMemory(m, t, p);
    NextInMemory(m, t, x);
    FullLap(t, x, d);
    AroundPos(t, x, d);
    if Runnable(m, p) {
      assert Gap(t, x, p) == d;
    } else if d >= RingSize(t, x) - 1 {
      if d < RingSize(t, x) {
        assert Around(t, x, d + 1) == After(t, p);
        FullLap(t, x, d + 1);
      }
      LapDone(m, t, x);
    } else {
      assert Around(t, x, d + 1) == After(t, p);
      FullLap(t, x, d + 1);
      SkipFindsFirst(m, t, x, d + 1, budget - 1);
    }
  }

  /** next_runnable: the first runnable strict successor, else the node itself if it can
      run, else null. */
  lemma NextRunnableIsFirst(m: Mem, t: Tree, x: Ptr)
    requires Represents(m, t) && x in t.nodes && x != t.root
    ensures FirstAfter(m, t, x, NextRunnable(m, x))
  {
    NextInMemory(m, t, x);
    RingFits(m, t, x);
    assert Around(t, x, 1) == After(t, Around(t, x, 0));
    SkipFindsFirst(m, t, x, 1, |m|);
  }

  /** first_runnable_from: the node itself if it can run, else the first runnable
      successor, else null. */
  lemma FirstRunnableIsFirst(m: Mem, t: Tree, x: Ptr)
    requires Represents(m, t) && x in t.nodes && x != t.root
    ensures Runnable(m, x) ==> FirstRunnableFrom(m, x) == x
    ensures !Runnable(m, x) ==> FirstAfter(m, t, x, FirstRunnableFrom(m, x))
  {
    NextInMemory(m, t, x);
    NextRunnableIsFirst(m, t, x);
  }

  /** The child a visit resumes on: the cursor if it can run, else the first child after it
      that can, else nobody, and then nobody in the ring can run. */
  lemma ResumeIsFair(m: Mem, t: Tree, g: Ptr)
    requires Represents(m, t) && g in t.kids && g in t.nodes
    ensures var c := ResumeChild(m, g);
            if Runnable(m, Cursor(m, g)) then c == Cursor(m, g) && IsKid(t, g, c)
            else if c == NULL then NobodyRunsIn(m, t, g)
            else IsKid(t, g, c) && Runnable(m, c) && Cursor(m, g) in t.nodes && Cursor(m, g) != t.root
                 && FirstAfter(m, t, Cursor(m, g), c)
  {
    assert Holds(m, t, g);
    var cur := m[g].cursor;
    if |t.kids[g]| == 0 {
      forall y ensures !IsKid(t, g, y) {
        if y in t.nodes {
          assert NodeOk(t, y);
        }
      }
    } else {
      assert KidOk(t, g, 0) && NodeOk(t, cur) && NodeOk(t, t.root);
      NextInMemory(m, t, t.kids[g][0]);
      NextInMemory(m, t, cur);
      NextRunnableIsFirst(m, t, cur);
      FirstRunnableIsFirst(m, t, t.kids[g][0]);
    }
  }
}
