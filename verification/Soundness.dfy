/**
  Dispatch in arbitrary states: tasks may be blocked, groups may be empty, cursors may be
  anywhere in their rings.
 */
module Soundness {
  import opened RoundRobin
  import opened Tree
  import opened Memory
  import opened Dispatch
  import opened Climb
  import opened Rings
  import opened Timeline

  // ----- what a dispatch may change

  function Full(c: Tcb): nat { if c.slice == 0 then 1 else c.slice }

  /** Only the cursor and the quantum; the cursor only to one of the group's own children;
      the quantum only from nothing to a full one. */
  ghost predicate SteppedNode(c: Tcb, c': Tcb, t: Tree, x: Ptr) {
    && c' == c.(remaining := c'.remaining, cursor := c'.cursor)
    && (c'.remaining == c.remaining || (c.remaining == 0 && c'.remaining == Full(c)))
    && (c'.cursor == c.cursor || (x in t.kids && IsKid(t, x, c'.cursor)))
  }

  ghost predicate Stepped(m: Mem, m': Mem, t: Tree) {
    && m'.Keys == m.Keys
    && forall x {:trigger m'[x]} | x in m :: SteppedNode(m[x], m'[x], t, x)
  }

  lemma SteppedTrans(m: Mem, m1: Mem, m2: Mem, t: Tree)
    requires Stepped(m, m1, t) && Stepped(m1, m2, t)
    ensures Stepped(m, m2, t)
  {
    forall x | x in m ensures SteppedNode(m[x], m2[x], t, x) {
      assert SteppedNode(m[x], m1[x], t, x);
    }
  }

  lemma SteppedHolds(m: Mem, m': Mem, t: Tree)
    requires Represents(m, t) && Stepped(m, m', t)
    ensures Represents(m', t)
  {
    forall x | x in t.nodes ensures Holds(m', t, x) {
      assert NodeOk(t, x) && Holds(m, t, x);
      assert SteppedNode(m[x], m'[x], t, x);
      if m'[x].cursor != m[x].cursor {
        assert NodeOk(t, m'[x].cursor);
      }
    }
  }

  lemma SteppedRuns(m: Mem, m': Mem, t: Tree, x: Ptr)
    requires Stepped(m, m', t)
    ensures Runnable(m', x) == Runnable(m, x)
    ensures Remaining(m, x) > 0 ==> Remaining(m', x) == Remaining(m, x)
  {
    if x in m {
      assert x in m';
    }
  }

  lemma ArmSteps(m: Mem, t: Tree, p: Ptr)
    ensures Stepped(m, ArmIfNeeded(m, p), t)
    ensures p in m ==> Remaining(ArmIfNeeded(m, p), p) > 0
  {
  }

  lemma CursorSteps(m: Mem, t: Tree, g: Ptr, c: Ptr)
    requires g in m && g in t.kids && IsKid(t, g, c)
    ensures Stepped(m, SetCursor(m, g, c), t)
  {
  }

  // ----- descending

  /** A leaf that can run, with quantum at every level from low down to it. */
  ghost predicate Offered(m: Mem, t: Tree, p: Ptr, leaf: Ptr)
    requires Valid(t)
  {
    && IsLeaf(t, leaf) && Runnable(m, leaf) && Above(t, p, leaf)
    && p in t.nodes
    && forall x | Above(t, x, leaf) && x in t.nodes && t.nodes[p].level <= t.nodes[x].level :: Remaining(m, x) > 0
  }

  lemma {:induction false} AboveTrans(t: Tree, x: Ptr, y: Ptr, z: Ptr)
    requires Valid(t) && y in t.nodes && z in t.nodes && Above(t, x, y) && Above(t, y, z)
    ensures Above(t, x, z)
    decreases t.nodes[z].level
  {
    if y != z {
      AboveTrans(t, x, y, ParentOf(t, z));
    }
  }

  /** Two ancestors of one node are each other's ancestors, by level. */
  lemma {:induction false} AboveComparable(t: Tree, x: Ptr, y: Ptr, z: Ptr)
    requires Valid(t) && z in t.nodes && Above(t, x, z) && Above(t, y, z)
    requires x in t.nodes && y in t.nodes && t.nodes[x].level <= t.nodes[y].level
    ensures Above(t, x, y)
    decreases t.nodes[z].level
  {
    if y != z {
      if x == z {
        AboveLevel(t, y, z);
      } else {
        AboveComparable(t, x, y, ParentOf(t, z));
      }
    }
  }

  lemma OfferThrough(m: Mem, t: Tree, p: Ptr, c: Ptr, leaf: Ptr)
    requires Valid(t) && c in t.nodes && c != t.root && ParentOf(t, c) == p
    requires Offered(m, t, c, leaf) && Remaining(m, p) > 0
    ensures Offered(m, t, p, leaf)
  {
    AboveTrans(t, p, c, leaf);
    forall x | Above(t, x, leaf) && x in t.nodes && t.nodes[p].level <= t.nodes[x].level ensures Remaining(m, x) > 0 {
      if t.nodes[x].level == t.nodes[p].level {
        AboveComparable(t, x, p, leaf);
        AboveLevel(t, x, p);
      }
    }
  }

  lemma {:induction false} DescendOffers(m: Mem, t: Tree, p: Ptr, budget: nat)
    requires Represents(m, t) && p in t.nodes
    ensures var (m', leaf) := DescendAndArm(m, p, budget);
            Stepped(m, m', t) && (leaf != NULL ==> Offered(m', t, p, leaf))
    decreases budget
  {
    assert Holds(m, t, p);
    ArmSteps(m, t, p);
    var armed := ArmIfNeeded(m, p);
    SteppedHolds(m, armed, t);
    if p in t.kids {
      if budget > 0 {
        var c := ResumeChild(armed, p);
        ResumeIsFair(armed, t, p);
        if Runnable(armed, c) {
          KidIsNotRoot(t, p, c);
          CursorSteps(armed, t, p, c);
          var m1 := SetCursor(armed, p, c);
          SteppedHolds(armed, m1, t);
          DescendOffers(m1, t, c, budget - 1);
          var (m', leaf) := DescendAndArm(m1, c, budget - 1);
          SteppedTrans(m, armed, m1, t);
          SteppedTrans(m, m1, m', t);
          SteppedRuns(m1, m', t, p);
          if leaf != NULL {
            OfferThrough(m', t, p, c, leaf);
          }
        }
      }
    } else {
      forall x | Above(t, x, p) && x in t.nodes && t.nodes[p].level <= t.nodes[x].level ensures x == p {
        AboveLevel(t, x, p);
      }
    }
  }

  // ----- scanning a ring and climbing

  lemma {:induction false} ScanOffers(m: Mem, t: Tree, g: Ptr, start: Ptr, p: Ptr, limit: nat, budget: nat)
    requires Represents(m, t) && g in t.kids && g in t.nodes && IsKid(t, g, p)
    ensures var (m', leaf) := ScanRing(m, g, start, p, limit, budget);
            Stepped(m, m', t) && (leaf != NULL ==> exists c :: IsKid(t, g, c) && Offered(m', t, c, leaf))
    decreases budget
  {
    hide DescendAndArm;
    KidIsNotRoot(t, g, p);
    DescendOffers(m, t, p, limit);
    var (tried, leaf) := if Runnable(m, p) then DescendAndArm(m, p, limit) else (m, NULL);
    SteppedHolds(m, tried, t);
    assert Holds(m, t, g);
    if leaf != NULL {
      CursorSteps(tried, t, g, p);
      SteppedTrans(m, tried, SetCursor(tried, g, p), t);
      assert IsKid(t, g, p) && Offered(SetCursor(tried, g, p), t, p, leaf) by {
        OfferKept(tried, SetCursor(tried, g, p), t, p, leaf);
      }
    } else {
      var q := Next(tried, p);
      NextInMemory(tried, t, p);
      if !(!Linked(tried, q) || q == start || budget == 0) {
        ScanOffers(tried, t, g, start, q, limit, budget - 1);
        SteppedTrans(m, tried, ScanRing(tried, g, start, q, limit, budget - 1).0, t);
      }
    }
  }

  lemma OfferKept(m: Mem, m': Mem, t: Tree, p: Ptr, leaf: Ptr)
    requires Valid(t) && Stepped(m, m', t) && Offered(m, t, p, leaf)
    ensures Offered(m', t, p, leaf)
  {
    SteppedRuns(m, m', t, leaf);
    forall x | Above(t, x, leaf) && x in t.nodes && t.nodes[p].level <= t.nodes[x].level ensures Remaining(m', x) > 0 {
      SteppedRuns(m, m', t, x);
    }
  }

  /** Quantum left at g and at every ancestor of g. */
  ghost predicate Funded(m: Mem, t: Tree, g: Ptr)
    requires Valid(t) && g in t.nodes
  {
    forall x | Above(t, x, g) :: Remaining(m, x) > 0
  }

  /** Quantum left at g and at every ancestor of g but the root, which is never armed. */
  ghost predicate FundedBelow(m: Mem, t: Tree, g: Ptr)
    requires Valid(t) && g in t.nodes
  {
    forall x | Above(t, x, g) && x != t.root :: Remaining(m, x) > 0
  }

  lemma FundedKept(m: Mem, m': Mem, t: Tree, g: Ptr)
    requires Valid(t) && g in t.nodes && Stepped(m, m', t) && FundedBelow(m, t, g)
    ensures FundedBelow(m', t, g)
  {
    forall x | Above(t, x, g) && x != t.root ensures Remaining(m', x) > 0 {
      SteppedRuns(m, m', t, x);
    }
  }

  lemma OfferFunded(m: Mem, t: Tree, g: Ptr, c: Ptr, leaf: Ptr)
    requires Valid(t) && g in t.nodes && c in t.nodes && c != t.root && ParentOf(t, c) == g
    requires Offered(m, t, c, leaf) && FundedBelow(m, t, g)
    ensures FundedBelow(m, t, leaf)
  {
    AboveTrans(t, g, c, leaf);
    forall x | Above(t, x, leaf) && x != t.root ensures Remaining(m, x) > 0 {
      AboveLevel(t, x, leaf);
      if t.nodes[x].level <= t.nodes[g].level {
        AboveComparable(t, x, g, leaf);
      }
    }
  }

  /** A living, unblocked leaf. */
  ghost predicate CanRun(m: Mem, t: Tree, leaf: Ptr) {
    IsLeaf(t, leaf) && Runnable(m, leaf)
  }

  lemma {:induction false} AdvanceOffers(m: Mem, t: Tree, g: Ptr, limit: nat, budget: nat)
    requires Represents(m, t) && g in t.kids && g in t.nodes
    ensures var (m', leaf) := AdvanceFrom(m, g, limit, budget);
            && Stepped(m, m', t)
            && (leaf != NULL ==> CanRun(m', t, leaf) && (FundedBelow(m, t, g) ==> FundedBelow(m', t, leaf)))
    decreases budget
  {
    hide ScanRing;
    assert Holds(m, t, g) && NodeOk(t, g);
    if budget > 0 {
      var (tried, leaf) :=
        if Linked(m, Head(m, g)) then ScanRing(m, g, ScanStart(m, g), ScanStart(m, g), limit, |m|) else (m, NULL);
      if Linked(m, Head(m, g)) {
        ScanStartIsKid(m, t, g);
        ScanOffers(m, t, g, ScanStart(m, g), ScanStart(m, g), limit, |m|);
      }
      SteppedHolds(m, tried, t);
      if FundedBelow(m, t, g) {
        FundedKept(m, tried, t, g);
      }
      if leaf != NULL {
        var c :| IsKid(t, g, c) && Offered(tried, t, c, leaf);
        KidIsNotRoot(t, g, c);
        if FundedBelow(m, t, g) {
          OfferFunded(tried, t, g, c, leaf);
        }
      } else if g == t.root {
        assert Holds(tried, t, g);
        assert AdvanceFrom(tried, NULL, limit, budget - 1) == (tried, NULL);
      } else {
        assert Holds(tried, t, g);
        var up := ParentOf(t, g);
        AdvanceOffers(tried, t, up, limit, budget - 1);
        SteppedTrans(m, tried, AdvanceFrom(tried, up, limit, budget - 1).0, t);
        assert FundedBelow(tried, t, g) ==> FundedBelow(tried, t, up);
      }
    }
  }

  lemma ScanStartIsKid(m: Mem, t: Tree, g: Ptr)
    requires Represents(m, t) && g in t.kids && g in t.nodes && Linked(m, Head(m, g))
    ensures IsKid(t, g, ScanStart(m, g))
    ensures IsKid(t, g, Cursor(m, g)) && Cursor(m, g) != t.root && ScanStart(m, g) == After(t, Cursor(m, g))
  {
    assert Holds(m, t, g);
    var cur := Cursor(m, g);
    KidIsNotRoot(t, g, cur);
    NextInMemory(m, t, cur);
  }

  // ----- picking

  lemma {:induction false} RetireSteps(m: Mem, t: Tree, n: Ptr, z: Ptr, budget: nat)
    requires Represents(m, t) && n in t.nodes
    ensures Stepped(m, RetireSpent(m, n, z, budget), t)
    ensures forall x | x in m :: Remaining(RetireSpent(m, n, z, budget), x) == Remaining(m, x)
    decreases budget
  {
    assert Holds(m, t, n) && NodeOk(t, n);
    if n != z && budget > 0 {
      var m1 := RetireOne(m, n);
      if n == t.root {
        assert m1 == m;
        assert RetireSpent(m1, NULL, z, budget - 1) == m1;
      } else {
        NextRunnableIsFirst(m, t, n);
        SteppedHolds(m, m1, t);
        RetireSteps(m1, t, ParentOf(t, n), z, budget - 1);
        SteppedTrans(m, m1, RetireSpent(m1, ParentOf(t, n), z, budget - 1), t);
      }
    }
  }

  /** Whatever is picked can run, and has quantum left at every level below the root; and at
      the root too, as long as the root had some. */
  lemma PickOffers(m: Mem, t: Tree, cur: Ptr, limit: nat)
    requires Represents(m, t) && t.depth <= limit
    requires cur == NULL || IsLeaf(t, cur)
    ensures var (m', leaf) := PickNextLeaf(m, t.root, cur, limit);
            && Stepped(m, m', t)
            && (leaf != NULL ==> CanRun(m', t, leaf) && FundedBelow(m', t, leaf))
            && (leaf != NULL && Remaining(m, t.root) > 0 ==> Funded(m', t, leaf))
  {
    hide AdvanceFrom, DescendAndArm, RetireSpent, OutermostExhausted, ResumeChild, PickNextLeaf;
    if cur == NULL {
      IdleOffers(m, t, limit);
    } else {
      LeafOffers(m, t, cur, limit);
    }
    var (m', leaf) := PickNextLeaf(m, t.root, cur, limit);
    SteppedRuns(m, m', t, t.root);
  }

  lemma LeafOffers(m: Mem, t: Tree, cur: Ptr, limit: nat)
    requires Represents(m, t) && t.depth <= limit && IsLeaf(t, cur)
    ensures var (m', leaf) := PickNextLeaf(m, t.root, cur, limit);
            Stepped(m, m', t) && (leaf != NULL ==> CanRun(m', t, leaf) && FundedBelow(m', t, leaf))
  {
    hide AdvanceFrom, DescendAndArm, RetireSpent, OutermostExhausted, ResumeChild;
    assert NodeOk(t, t.root) && Holds(m, t, t.root);
    RepresentsClimbs(m, t);
    assert NodeOk(t, cur) && Holds(m, t, cur);
    OutermostFound(m, t, cur, NULL, limit);
    var z := OutermostExhausted(m, cur, NULL, limit);
    if z == NULL {
      if !Runnable(m, cur) {
        AdvanceOffers(m, t, t.root, limit, limit);
      }
    } else {
      var retired := RetireSpent(m, cur, z, limit + 1);
      RetireSteps(m, t, cur, z, limit + 1);
      SteppedHolds(m, retired, t);
      AboveLevel(t, z, cur);
      assert Holds(retired, t, z);
      if z == t.root {
        AdvanceOffers(retired, t, t.root, limit, limit);
        SteppedTrans(m, retired, AdvanceFrom(retired, t.root, limit, limit).0, t);
      } else {
        assert Holds(retired, t, ParentOf(t, z));
        ParentFunded(m, retired, t, z);
        AdvanceOffers(retired, t, ParentOf(t, z), limit, limit);
        SteppedTrans(m, retired, AdvanceFrom(retired, ParentOf(t, z), limit, limit).0, t);
      }
    }
  }

  lemma ParentFunded(m: Mem, m': Mem, t: Tree, z: Ptr)
    requires Valid(t) && z in t.nodes && z != t.root && Stepped(m, m', t)
    requires forall x | Above(t, x, z) && x != z :: Remaining(m, x) > 0
    ensures FundedBelow(m', t, ParentOf(t, z))
  {
    forall x | Above(t, x, ParentOf(t, z)) ensures Remaining(m', x) > 0 {
      AboveLevel(t, x, ParentOf(t, z));
      SteppedRuns(m, m', t, x);
    }
  }

  lemma IdleOffers(m: Mem, t: Tree, limit: nat)
    requires Represents(m, t)
    ensures var (m', leaf) := PickNextLeaf(m, t.root, NULL, limit);
            Stepped(m, m', t) && (leaf != NULL ==> CanRun(m', t, leaf) && FundedBelow(m', t, leaf))
  {
    hide AdvanceFrom, DescendAndArm, ResumeChild;
    assert NodeOk(t, t.root) && Holds(m, t, t.root);
    ResumeIsFair(m, t, t.root);
    var c := ResumeChild(m, t.root);
    var (tried, leaf) := DescendAndArm(m, c, limit);
    if c in m {
      KidIsNotRoot(t, t.root, c);
      DescendOffers(m, t, c, limit);
    } else {
      NullOffersNothing(m, c, limit);
    }
    SteppedHolds(m, tried, t);
    if leaf != NULL {
      OfferFunded(tried, t, t.root, c, leaf);
    } else {
      AdvanceOffers(tried, t, t.root, limit, limit);
      SteppedTrans(m, tried, AdvanceFrom(tried, t.root, limit, limit).0, t);
    }
  }

  lemma NullOffersNothing(m: Mem, p: Ptr, limit: nat)
    requires p !in m
    ensures DescendAndArm(m, p, limit) == (m, NULL)
  {
  }
}
