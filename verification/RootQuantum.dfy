/**
  What the root's quantum is good for: 2^32 - 1 ticks.

  The root is drained like every node and never armed again.  Once its quantum is gone
  every tick cuts it, and the top-level cursor moves once for the child that is spent and
  once more for the root.  With a single child at the top that is harmless; with more, the
  closed form fails at that very tick.
 */
module RootQuantum {
  import opened RoundRobin
  import opened Tree
  import opened Memory
  import opened Dispatch
  import opened Walk
  import opened Climb
  import opened Rings
  import opened Soundness
  import opened Timeline

  /** Between the drain and the switch of tick k + 1, with nothing left at the root. */
  ghost predicate RunOut(m: Mem, t: Tree, k: nat) {
    && Busy(m, t)
    && Remaining(m, t.root) == 0
    && (forall g {:trigger CursorOnTurn(m, t, g, k)} | g in t.kids :: CursorOnTurn(m, t, g, k))
    && (forall x {:trigger QuantumLeft(m, t, x, k + 1)} | x in t.nodes :: QuantumLeft(m, t, x, k + 1))
    && ServedLeft(m, t, k)
  }

  lemma DrainRunsOut(m: Mem, m': Mem, t: Tree, k: nat)
    requires Paced(m, t, k) && Remaining(m, t.root) <= 1 && SpentOnServed(m, m', t, k)
    ensures RunOut(m', t, k)
  {
    hide Used, Turn, Count;
    SpendingKeepsBusy(m, m', t);
    assert NodeOk(t, t.root) && Holds(m, t, t.root) && Serves(t, t.root, k);
    forall x | x in t.nodes && x != t.root
      ensures QuantumLeft(m', t, x, k + 1)
      ensures Serves(t, x, k) ==> Remaining(m', x) + Used(t, x, k) + 1 == t.nodes[x].slice
    {
      SpendingQuantum(m, m', t, k, x);
    }
    forall g | g in t.kids ensures CursorOnTurn(m', t, g, k) {
      SpendingCursor(m, m', t, k, g);
    }
  }

  lemma RootIsOutermost(m: Mem, t: Tree, cur: Ptr, limit: nat)
    requires Represents(m, t) && cur in t.nodes && t.depth <= limit && Remaining(m, t.root) == 0
    ensures OutermostExhausted(m, cur, NULL, limit) == t.root
  {
    hide OutermostExhausted;
    RepresentsClimbs(m, t);
    assert NodeOk(t, cur);
    OutermostFound(m, t, cur, NULL, limit);
    RootIsAbove(t, cur);
    RootIsAbove(t, OutermostExhausted(m, cur, NULL, limit));
  }

  /** Every cursor on the path has moved on to tick k + 1, the root's included. */
  ghost predicate AllRetired(m: Mem, m2: Mem, t: Tree, k: nat) {
    && Valid(t) && Staffed(t)
    && m2.Keys == m.Keys
    && (forall x {:trigger m2[x]} | x in m :: m2[x] == m[x].(cursor := m2[x].cursor))
    && (forall x {:trigger m2[x]} | x in m && x !in t.kids :: m2[x] == m[x])
    && (forall g {:trigger Cursor(m2, g)} | g in t.kids :: Cursor(m2, g) == t.kids[g][Turn(t, g, k + 1)])
  }

  lemma RetiringAll(m: Mem, t: Tree, cur: Ptr, k: nat, budget: nat)
    requires RunOut(m, t, k) && IsLeaf(t, cur) && Serves(t, cur, k) && t.depth <= budget
    ensures AllRetired(m, RetireSpent(m, cur, t.root, budget), t, k)
  {
    hide Used, Turn, Count, Serves, ServedLeft, RetireSpent;
    assert NodeOk(t, cur) && NodeOk(t, t.root);
    assert Serves(t, t.root, k) by { RootServes(t, k); }
    BusyRolls(m, t);
    forall g | Between(t, g, t.root, cur, k) ensures Cursor(m, g) == t.kids[g][Turn(t, g, k)] {
      assert CursorOnTurn(m, t, g, k);
    }
    RetireMovesCursors(m, t, cur, t.root, k, budget);
    var m2 := RetireSpent(m, cur, t.root, budget);
    forall g | g in t.kids ensures Cursor(m2, g) == t.kids[g][Turn(t, g, k + 1)] {
      assert CursorOnTurn(m, t, g, k) && Holds(m, t, g);
      if Serves(t, g, k) {
        LeafIsLowest(t, g, cur, k);
        if t.nodes[g].level == t.nodes[cur].level {
          ServesLevelUnique(t, g, cur, k);
        }
      } else {
        PausedTurn(t, g, k);
      }
    }
  }

  lemma AllRetiredNode(m: Mem, m2: Mem, t: Tree, k: nat, x: Ptr)
    requires Represents(m, t) && Staffed(t) && x in t.nodes && Runnable(m, x)
    requires x in m ==> x in m2 && m2[x] == m[x].(cursor := m2[x].cursor) && (x !in t.kids ==> m2[x] == m[x])
    requires x in t.kids ==> Cursor(m2, x) == t.kids[x][Turn(t, x, k + 1)]
    ensures Holds(m2, t, x) && Runnable(m2, x)
  {
    hide Turn;
    assert Holds(m, t, x) && NodeOk(t, x);
    if x in t.kids {
      assert KidOk(t, x, Turn(t, x, k + 1));
    }
  }

  lemma AllRetiredRolls(m: Mem, m2: Mem, t: Tree, k: nat)
    requires Busy(m, t) && AllRetired(m, m2, t, k)
    ensures Busy(m2, t) && Rolling(m2, t)
  {
    hide Turn, Holds, Valid, Staffed, Rolling, Runnable;
    forall x | x in t.nodes ensures Holds(m2, t, x) && Runnable(m2, x) {
      assert Runnable(m, x);
      if x in m {
        assert m2[x] == m[x].(cursor := m2[x].cursor);
      }
      if x in t.kids {
        assert Cursor(m2, x) == t.kids[x][Turn(t, x, k + 1)];
      }
      AllRetiredNode(m, m2, t, k, x);
    }
    forall x | x in m2 ensures !m2[x].state.Blocked? {
      assert m2[x] == m[x].(cursor := m2[x].cursor);
    }
    BusyRolls(m2, t);
  }

  /** Where the root's ring is entered: behind the cursor. */
  lemma RootScan(m2: Mem, t: Tree)
    requires Busy(m2, t)
    ensures t.root in m2 && Linked(m2, Head(m2, t.root))
    ensures IsKid(t, t.root, Cursor(m2, t.root)) && Cursor(m2, t.root) != t.root
    ensures ScanStart(m2, t.root) == After(t, Cursor(m2, t.root))
  {
    assert Holds(m2, t, t.root) && NodeOk(t, t.root) && KidOk(t, t.root, 0);
    NextInMemory(m2, t, t.kids[t.root][0]);
    ScanStartIsKid(m2, t, t.root);
  }

  /** On a tree where everybody can run the child behind the cursor gets the turn. */
  lemma FirstOffer(m2: Mem, t: Tree, limit: nat)
    requires Busy(m2, t) && limit > 0
    ensures var p := ScanStart(m2, t.root);
            var (m', leaf) := DescendAndArm(m2, p, limit);
            leaf != NULL ==> t.root in m' && AdvanceFrom(m2, t.root, limit, limit) == (SetCursor(m', t.root, p), leaf)
  {
    hide DescendAndArm;
    RootScan(m2, t);
    var p := ScanStart(m2, t.root);
    assert Runnable(m2, p);
    DescendOffers(m2, t, p, limit);
  }

  // ----- one child at the top: nothing is lost

  /** One tick of the switch with a worn-out root above a single child. */
  lemma SingleChildSwitch(m: Mem, m2: Mem, t: Tree, k: nat, limit: nat)
    requires RunOut(m, t, k) && AllRetired(m, m2, t, k) && |t.kids[t.root]| == 1 && t.depth <= limit
    ensures var (m3, leaf) := AdvanceFrom(m2, t.root, limit, limit);
            && IsLeaf(t, leaf) && Serves(t, leaf, k + 1)
            && m3.Keys == m.Keys
            && (forall x {:trigger m3[x]} | x in m :: m3[x] == m2[x].(remaining := m3[x].remaining))
            && (forall x {:trigger m3[x]} | x in m ::
                  m3[x].remaining == if ServedFrom(t, x, 1, k + 1) then Armed(m[x]).remaining else m[x].remaining)
  {
    hide Used, Turn, Count, Serves, ServedFrom, ServedLeft, DescendAndArm, AdvanceFrom;
    var c := t.kids[t.root][0];
    assert KidOk(t, t.root, 0) && NodeOk(t, c) && NodeOk(t, t.root);
    AllRetiredRolls(m, m2, t, k);
    RootScan(m2, t);
    assert Cursor(m2, t.root) == c && After(t, c) == c;
    RootServes(t, k + 1);
    TurnIsServed(t, t.root, k + 1);
    DescendFollowsTurn(m2, t, c, k + 1, limit);
    FirstOffer(m2, t, limit);
    RootTooHigh(t, k + 1);
    var m' := DescendAndArm(m2, c, limit).0;
    assert SetCursor(m', t.root, c) == m';
  }

  lemma RootTooHigh(t: Tree, k: nat)
    requires Valid(t) && Staffed(t)
    ensures !ServedFrom(t, t.root, 1, k)
  {
    assert NodeOk(t, t.root);
  }

  lemma SingleChildNode(m: Mem, m2: Mem, m3: Mem, t: Tree, k: nat, x: Ptr)
    requires RunOut(m, t, k) && AllRetired(m, m2, t, k) && m3.Keys == m.Keys
    requires x in m ==> m3[x] == m2[x].(remaining := m3[x].remaining)
    requires x in m ==> m3[x].remaining == if ServedFrom(t, x, 1, k + 1) then Armed(m[x]).remaining else m[x].remaining
    requires x in t.nodes
    ensures Holds(m3, t, x) && Runnable(m3, x) && QuantumLeft(m3, t, x, k + 1)
    ensures x != t.root && Serves(t, x, k + 1) ==> Remaining(m3, x) > 0
    ensures x == t.root ==> Remaining(m3, x) == 0
    ensures x in t.kids ==> CursorOnTurn(m3, t, x, k + 1)
  {
    hide Used, Turn, Count, Serves, ServedLeft;
    assert Holds(m, t, x) && Runnable(m, x) && QuantumLeft(m, t, x, k + 1) && NodeOk(t, x);
    assert m2[x] == m[x].(cursor := m2[x].cursor);
    if x in t.kids {
      assert Cursor(m2, x) == t.kids[x][Turn(t, x, k + 1)];
      assert KidOk(t, x, Turn(t, x, k + 1));
    }
  }

  /** The root is out of quantum for good, and everything else is on time. */
  ghost predicate Worn(s: State, t: Tree, k: nat) {
    && Paced(s.mem, t, k) && Remaining(s.mem, t.root) == 0
    && s.root == t.root
    && t.depth <= s.nodes
    && IsLeaf(t, s.current) && Serves(t, s.current, k)
  }

  lemma SingleChildKeeps(m: Mem, m2: Mem, m3: Mem, t: Tree, k: nat)
    requires RunOut(m, t, k) && AllRetired(m, m2, t, k) && m3.Keys == m.Keys
    requires forall x {:trigger m3[x]} | x in m :: m3[x] == m2[x].(remaining := m3[x].remaining)
    requires forall x {:trigger m3[x]} | x in m ::
               m3[x].remaining == if ServedFrom(t, x, 1, k + 1) then Armed(m[x]).remaining else m[x].remaining
    ensures Paced(m3, t, k + 1) && Remaining(m3, t.root) == 0
  {
    hide Used, Turn, Count, Serves, ServedLeft, ServedFrom, CursorOnTurn, Holds, QuantumLeft;
    forall x | x in t.nodes
      ensures Holds(m3, t, x) && Runnable(m3, x) && QuantumLeft(m3, t, x, k + 1)
      ensures x != t.root && Serves(t, x, k + 1) ==> Remaining(m3, x) > 0
      ensures x == t.root ==> Remaining(m3, x) == 0
      ensures x in t.kids ==> CursorOnTurn(m3, t, x, k + 1)
    {
      SingleChildNode(m, m2, m3, t, k, x);
    }
    forall x | x in m3 ensures !m3[x].state.Blocked? {
      assert m3[x] == m2[x].(remaining := m3[x].remaining) && m2[x] == m[x].(cursor := m2[x].cursor);
    }
  }

  /** With the root out of quantum every switch advances the top-level ring. */
  lemma PickAtRoot(m: Mem, t: Tree, cur: Ptr, limit: nat)
    requires Represents(m, t) && cur in t.nodes && t.depth <= limit && Remaining(m, t.root) == 0
    ensures PickNextLeaf(m, t.root, cur, limit)
         == AdvanceFrom(RetireSpent(m, cur, t.root, limit + 1), t.root, limit, limit)
  {
    hide RetireSpent, AdvanceFrom, OutermostExhausted;
    assert Holds(m, t, cur) && NodeOk(t, t.root) && Holds(m, t, t.root);
    RootIsOutermost(m, t, cur, limit);
  }

  lemma SingleChildPick(m: Mem, t: Tree, cur: Ptr, k: nat, limit: nat)
    requires RunOut(m, t, k) && IsLeaf(t, cur) && Serves(t, cur, k)
    requires |t.kids[t.root]| == 1 && t.depth <= limit
    ensures var (m3, leaf) := PickNextLeaf(m, t.root, cur, limit);
            Paced(m3, t, k + 1) && Remaining(m3, t.root) == 0 && IsLeaf(t, leaf) && Serves(t, leaf, k + 1)
  {
    hide Used, Turn, Count, Serves, ServedLeft, ServedFrom, RetireSpent, AdvanceFrom, PickNextLeaf, AllRetired, Paced;
    PickAtRoot(m, t, cur, limit);
    RetiringAll(m, t, cur, k, limit + 1);
    var m2 := RetireSpent(m, cur, t.root, limit + 1);
    SingleChildSwitch(m, m2, t, k, limit);
    SingleChildKeeps(m, m2, AdvanceFrom(m2, t.root, limit, limit).0, t, k);
  }

  /** A tick that finds at most one left at the root, up to its switch. */
  lemma TickRunsOut(s: State, t: Tree, k: nat)
    requires Paced(s.mem, t, k) && Remaining(s.mem, t.root) <= 1
    requires s.root == t.root && t.depth <= s.nodes && IsLeaf(t, s.current) && Serves(t, s.current, k)
    ensures var m := DrainPath(s.mem, s.current, WalkLimit(s.nodes));
            && OnTick(s) == s.(ticks := s.ticks + 1, mem := m)
            && RunOut(m, t, k)
            && Linked(m, s.current)
  {
    hide Used, Turn, Count, Serves, DrainPath, Sweep, ServedLeft;
    var limit, cur := WalkLimit(s.nodes), s.current;
    var m := DrainPath(s.mem, cur, limit);
    DrainSpendsServed(s.mem, t, cur, k, limit);
    DrainRunsOut(s.mem, m, t, k);
    NobodyExpires(m, Visited(s.(ticks := s.ticks + 1, mem := m)), s.ticks + 1);
    assert NodeOk(t, t.root);
    NextInMemory(m, t, cur);
  }

  lemma SingleChildTick(s: State, t: Tree, k: nat)
    requires Paced(s.mem, t, k) && Remaining(s.mem, t.root) <= 1 && |t.kids[t.root]| == 1
    requires s.root == t.root && t.depth <= s.nodes && IsLeaf(t, s.current) && Serves(t, s.current, k)
    ensures Worn(Tick(s).0, t, k + 1)
  {
    hide Used, Turn, Count, Serves, PickNextLeaf, DrainPath, OnTick, HandOver, RunOut, Paced;
    TickRunsOut(s, t, k);
    var m := DrainPath(s.mem, s.current, WalkLimit(s.nodes));
    SingleChildPick(m, t, s.current, k, WalkLimit(s.nodes));
    var (m3, leaf) := PickNextLeaf(m, t.root, s.current, WalkLimit(s.nodes));
    PacedLeaf(m3, t, k + 1, leaf);
    if leaf != s.current {
      HandOverKeepsTime(m3, t, s.current, leaf, k + 1);
    }
  }

  lemma PacedLeaf(m: Mem, t: Tree, k: nat, leaf: Ptr)
    requires Paced(m, t, k) && IsLeaf(t, leaf)
    ensures Valid(t) && leaf in m && Linked(m, leaf)
  {
    assert NodeOk(t, t.root);
    NextInMemory(m, t, leaf);
  }

  lemma {:induction false} SingleChildRun(s: State, t: Tree, k: nat)
    requires Started(s, t) && |t.kids[t.root]| == 1 && k >= U32_MAX
    ensures Worn(Ticks(s, k), t, k)
  {
    hide Worn, Tick, AtTick, Paced;
    if k == U32_MAX {
      RunKeepsTime(s, t, k - 1);
      LastTick(Ticks(s, k - 1), t);
    } else {
      SingleChildRun(s, t, k - 1);
      WornTick(Ticks(s, k - 1), t, k - 1);
    }
  }

  lemma LastTick(s: State, t: Tree)
    requires AtTick(s, t, U32_MAX - 1) && |t.kids[t.root]| == 1
    ensures Worn(Tick(s).0, t, U32_MAX)
  {
    hide Tick, Worn;
    SingleChildTick(s, t, U32_MAX - 1);
  }

  lemma WornTick(s: State, t: Tree, k: nat)
    requires Worn(s, t, k) && |t.kids[t.root]| == 1
    ensures Worn(Tick(s).0, t, k + 1)
  {
    hide Tick;
    SingleChildTick(s, t, k);
  }

  // ----- more than one child at the top: the rhythm breaks

  lemma {:induction false} DescendLands(m: Mem, t: Tree, p: Ptr, budget: nat)
    requires Busy(m, t) && p in t.nodes && t.depth <= t.nodes[p].level + budget
    ensures DescendAndArm(m, p, budget).1 != NULL
    decreases budget
  {
    hide ResumeChild;
    assert NodeOk(t, p) && Holds(m, t, p) && Runnable(m, p);
    if p in t.kids {
      var armed := ArmIfNeeded(m, p);
      ArmSteps(m, t, p);
      SteppedStaysBusy(m, armed, t);
      ResumeIsFair(armed, t, p);
      assert Holds(armed, t, p) && Runnable(armed, Cursor(armed, p));
      var c := ResumeChild(armed, p);
      KidIsNotRoot(t, p, c);
      CursorSteps(armed, t, p, c);
      SteppedStaysBusy(armed, SetCursor(armed, p, c), t);
      DescendLands(SetCursor(armed, p, c), t, c, budget - 1);
    }
  }

  lemma SteppedStaysBusy(m: Mem, m': Mem, t: Tree)
    requires Busy(m, t) && Stepped(m, m', t)
    ensures Busy(m', t)
  {
    SteppedHolds(m, m', t);
    forall x | x in t.nodes ensures Runnable(m', x) {
      assert Runnable(m, x);
      SteppedRuns(m, m', t, x);
    }
    forall x | x in m' ensures !m'[x].state.Blocked? {
      assert SteppedNode(m[x], m'[x], t, x);
    }
  }

  lemma {:induction false} LeafAtIsBelow(t: Tree, x: Ptr, n: nat)
    requires Valid(t) && Staffed(t) && x in t.nodes
    ensures Above(t, x, LeafAt(t, x, n))
    decreases t.depth - t.nodes[x].level
  {
    hide Share, OwnerOfTick;
    assert NodeOk(t, x);
    if x in t.kids {
      var i := OwnerOfTick(Slices(t, x), n);
      var c := t.kids[x][i];
      assert KidOk(t, x, i) && NodeOk(t, c);
      LeafAtIsBelow(t, c, Share(Slices(t, x), i, n));
      AboveTrans(t, x, c, LeafAt(t, x, n));
    }
  }

  /** Leaves below different children are different leaves. */
  lemma SiblingsApart(t: Tree, a: Ptr, b: Ptr, x: Ptr)
    requires Valid(t) && a in t.nodes && b in t.nodes && a != t.root && b != t.root
    requires ParentOf(t, a) == ParentOf(t, b) && x in t.nodes && Above(t, a, x) && Above(t, b, x)
    ensures a == b
  {
    AboveComparable(t, a, b, x);
    AboveLevel(t, a, b);
  }

  lemma RootTurnLeaf(t: Tree, k: nat)
    requires Valid(t) && Staffed(t)
    ensures Above(t, t.kids[t.root][Turn(t, t.root, k)], LeafAt(t, t.root, k))
  {
    hide Share, OwnerOfTick;
    var i := Turn(t, t.root, k);
    assert KidOk(t, t.root, i);
    LeafAtIsBelow(t, t.kids[t.root][i], Share(Slices(t, t.root), i, k));
  }

  lemma SkippedChild(m: Mem, m2: Mem, t: Tree, k: nat, limit: nat)
    requires RunOut(m, t, k) && AllRetired(m, m2, t, k) && |t.kids[t.root]| >= 2 && t.depth <= limit
    ensures AdvanceFrom(m2, t.root, limit, limit).1 != LeafAt(t, t.root, k + 1)
    ensures AdvanceFrom(m2, t.root, limit, limit).1 != NULL
  {
    hide Turn, Count, Serves, ServedLeft, DescendAndArm, AdvanceFrom, LeafAt;
    AllRetiredRolls(m, m2, t, k);
    RootScan(m2, t);
    var c, p := Cursor(m2, t.root), ScanStart(m2, t.root);
    assert NodeOk(t, t.root) && NodeOk(t, c) && NodeOk(t, p);
    assert c == t.kids[t.root][Turn(t, t.root, k + 1)];
    RootTurnLeaf(t, k + 1);
    DescendLands(m2, t, p, limit);
    DescendOffers(m2, t, p, limit);
    FirstOffer(m2, t, limit);
    assert Around(t, c, 1) == After(t, Around(t, c, 0)) && Around(t, c, 0) == c;
    FullLap(t, c, 1);
    var leaf := DescendAndArm(m2, p, limit).1;
    if leaf == LeafAt(t, t.root, k + 1) {
      SiblingsApart(t, c, p, leaf);
    }
  }

  lemma TwoChildrenTick(s: State, t: Tree, k: nat)
    requires Paced(s.mem, t, k) && Remaining(s.mem, t.root) <= 1 && |t.kids[t.root]| >= 2
    requires s.root == t.root && t.depth <= s.nodes && IsLeaf(t, s.current) && Serves(t, s.current, k)
    ensures Tick(s).0.current != LeafAt(t, t.root, k + 1)
  {
    hide Used, Turn, Count, Serves, PickNextLeaf, DrainPath, OnTick, HandOver, AllRetired, RetireSpent, AdvanceFrom,
         ServedLeft, LeafAt;
    TickRunsOut(s, t, k);
    var limit := WalkLimit(s.nodes);
    var m := DrainPath(s.mem, s.current, limit);
    PickAtRoot(m, t, s.current, limit);
    RetiringAll(m, t, s.current, k, limit + 1);
    SkippedChild(m, RetireSpent(m, s.current, t.root, limit + 1), t, k, limit);
    PickOffers(m, t, s.current, limit);
    var (m3, leaf) := PickNextLeaf(m, t.root, s.current, limit);
    SteppedHolds(m, m3, t);
    assert NodeOk(t, t.root);
    NextInMemory(m3, t, leaf);
  }

  /** Exactly when the closed form holds for good: when the root has a single child.
      Otherwise it holds for the first 2^32 - 2 ticks and fails at the next one. */
  lemma ClosedFormForever(s: State, t: Tree)
    requires Started(s, t)
    ensures (forall k: nat :: Ticks(s, k).current == LeafAt(t, t.root, k)) <==> |t.kids[t.root]| == 1
    ensures |t.kids[t.root]| != 1 ==> Ticks(s, U32_MAX).current != LeafAt(t, t.root, U32_MAX)
  {
    hide Tick, LeafAt, Worn, Count, Serves;
    if |t.kids[t.root]| == 1 {
      forall k: nat ensures Ticks(s, k).current == LeafAt(t, t.root, k) {
        if k < U32_MAX {
          RunIsRoundRobin(s, t, k);
        } else {
          SingleChildRun(s, t, k);
          WornIsOnRhythm(Ticks(s, k), t, k);
        }
      }
    } else {
      RunKeepsTime(s, t, U32_MAX - 1);
      assert NodeOk(t, t.root);
      TwoChildrenTick(Ticks(s, U32_MAX - 1), t, U32_MAX - 1);
    }
  }

  lemma WornIsOnRhythm(s: State, t: Tree, k: nat)
    requires Worn(s, t, k)
    ensures s.current == LeafAt(t, t.root, k)
  {
    hide Count;
    ServedLeaf(t, s.current, k);
    assert LeafAt(t, s.current, Count(t, s.current, k)) == s.current;
  }
}
