/**
  Nested round robin keeps one timeline per group.

  A tree whose leaves all stay runnable is started fresh.  After k ticks the kernel's
  cursors and remaining quanta are exactly the ones the closed form of module Tree
  dictates, so the leaf on the CPU is LeafAt(t, root, k): a function of the tree and of k
  alone, in which neither a cursor nor a remaining quantum occurs.
 */
module Timeline {
  import opened RoundRobin
  import opened Tree
  import opened Memory
  import opened Dispatch
  import opened Climb
  import opened Walk

  // ----- the invariant

  ghost predicate Lively(m: Mem, t: Tree) {
    && (forall x {:trigger Runnable(m, x)} | x in t.nodes :: Runnable(m, x))
    && (forall x | x in m :: !m[x].state.Blocked?)
  }

  /** Represents, with somebody to run everywhere. */
  ghost predicate Busy(m: Mem, t: Tree) {
    Represents(m, t) && Staffed(t) && Lively(m, t)
  }

  ghost predicate CursorOnTurn(m: Mem, t: Tree, g: Ptr, k: nat)
    requires Valid(t) && Staffed(t) && g in t.kids
  {
    Cursor(m, g) == t.kids[g][Turn(t, g, k)]
  }

  /** Off the path, "nothing left" and "nothing used" are the same thing. */
  ghost predicate QuantumLeft(m: Mem, t: Tree, x: Ptr, k: nat)
    requires Valid(t) && Staffed(t) && x in t.nodes
  {
    x != t.root ==>
      || Remaining(m, x) + Used(t, x, k) == t.nodes[x].slice
      || (Remaining(m, x) == 0 && Used(t, x, k) == 0)
  }

  /** Every cursor is on the turn of tick k, and every quantum is what tick k leaves of it:
      for a node being served that is at least one tick. */
  ghost predicate Paced(m: Mem, t: Tree, k: nat) {
    && Busy(m, t)
    && (forall g {:trigger CursorOnTurn(m, t, g, k)} | g in t.kids :: CursorOnTurn(m, t, g, k))
    && (forall x {:trigger QuantumLeft(m, t, x, k)} | x in t.nodes :: QuantumLeft(m, t, x, k))
    && (forall x {:trigger Serves(t, x, k)} | x in t.nodes && x != t.root && Serves(t, x, k) :: Remaining(m, x) > 0)
  }

  /** And the root's own quantum, which is never armed again, has not run out. */
  ghost predicate OnTime(m: Mem, t: Tree, k: nat) {
    Paced(m, t, k) && k < U32_MAX && Remaining(m, t.root) == U32_MAX - k
  }

  /** The whole kernel after k ticks of the run. */
  ghost predicate AtTick(s: State, t: Tree, k: nat) {
    && OnTime(s.mem, t, k)
    && s.root == t.root
    && t.depth <= s.nodes
    && IsLeaf(t, s.current) && Serves(t, s.current, k)
  }

  // ----- spending the path's quanta

  lemma {:induction false} ServedPath(t: Tree, x: Ptr, n: Ptr, k: nat)
    requires Valid(t) && Staffed(t) && x in t.nodes && n in t.nodes && Serves(t, n, k)
    ensures Above(t, x, n) <==> Serves(t, x, k) && t.nodes[x].level <= t.nodes[n].level
    decreases t.nodes[n].level
  {
    if Serves(t, x, k) && t.nodes[x].level == t.nodes[n].level {
      ServesLevelUnique(t, x, n, k);
    }
    assert NodeOk(t, n) && NodeOk(t, x);
    if n != t.root {
      ServedPath(t, x, ParentOf(t, n), k);
    }
    if Above(t, x, n) {
      AboveLevel(t, x, n);
    }
  }

  /** The state between the drain and the switch: quanta already belong to tick k + 1,
      cursors still to tick k. */
  ghost predicate Drained(m: Mem, t: Tree, k: nat) {
    && Busy(m, t)
    && k + 1 < U32_MAX
    && Remaining(m, t.root) == U32_MAX - (k + 1)
    && (forall g {:trigger CursorOnTurn(m, t, g, k)} | g in t.kids :: CursorOnTurn(m, t, g, k))
    && (forall x {:trigger QuantumLeft(m, t, x, k + 1)} | x in t.nodes :: QuantumLeft(m, t, x, k + 1))
    && (forall x {:trigger Serves(t, x, k)} | x in t.nodes && x != t.root && Serves(t, x, k) ::
          Remaining(m, x) + Used(t, x, k) + 1 == t.nodes[x].slice)
  }

  lemma UsedWhenUnserved(t: Tree, x: Ptr, k: nat)
    requires Valid(t) && Staffed(t) && x in t.nodes && x != t.root && !Serves(t, x, k)
    ensures Used(t, x, k + 1) == Used(t, x, k)
  {
    assert NodeOk(t, x);
    var g := t.nodes[x].parent;
    if Serves(t, g, k) {
      FreshTurn(t, x, k);
    } else {
      PausedTurn(t, g, k);
    }
  }

  /** m' is m after one tick spent on the nodes that serve tick k. */
  ghost predicate SpentOnServed(m: Mem, m': Mem, t: Tree, k: nat)
    requires Valid(t) && Staffed(t)
  {
    && m'.Keys == m.Keys
    && forall x {:trigger m'[x]} | x in m ::
         m'[x] == if x in t.nodes && Serves(t, x, k) then Spent(m[x]) else m[x]
  }

  lemma DrainSpendsServed(m: Mem, t: Tree, n: Ptr, k: nat, budget: nat)
    requires Paced(m, t, k)
    requires IsLeaf(t, n) && Serves(t, n, k) && t.depth <= budget
    ensures SpentOnServed(m, DrainPath(m, n, budget), t, k)
  {
    assert NodeOk(t, n);
    RepresentsClimbs(m, t);
    DrainSpendsPath(m, t, n, budget);
    forall x | x in m ensures (x in t.nodes && Serves(t, x, k)) <==> Above(t, x, n) {
      if x in t.nodes {
        if Serves(t, x, k) {
          LeafIsLowest(t, x, n, k);
        }
        ServedPath(t, x, n, k);
      } else if Above(t, x, n) {
        AboveLevel(t, x, n);
      }
    }
  }

  lemma SpendingKeepsBusy(m: Mem, m': Mem, t: Tree)
    requires Busy(m, t) && m'.Keys == m.Keys
    requires forall x {:trigger m'[x]} | x in m :: m'[x] == m[x] || m'[x] == Spent(m[x])
    ensures Busy(m', t)
  {
    forall x | x in t.nodes ensures Holds(m', t, x) && Runnable(m', x) {
      SpentHolds(m, m', t, x);
    }
    forall x | x in m' ensures !m'[x].state.Blocked? {
      assert m'[x] == m[x] || m'[x] == Spent(m[x]);
    }
  }

  lemma SpentHolds(m: Mem, m': Mem, t: Tree, x: Ptr)
    requires Busy(m, t) && x in t.nodes
    requires x in m ==> x in m' && (m'[x] == m[x] || m'[x] == Spent(m[x]))
    ensures Holds(m', t, x) && Runnable(m', x)
  {
    assert Holds(m, t, x) && Runnable(m, x);
  }

  lemma SpendingQuantum(m: Mem, m': Mem, t: Tree, k: nat, x: Ptr)
    requires Paced(m, t, k) && SpentOnServed(m, m', t, k) && Busy(m', t)
    requires x in t.nodes && x != t.root
    ensures QuantumLeft(m', t, x, k + 1)
    ensures Serves(t, x, k) ==> Remaining(m', x) + Used(t, x, k) + 1 == t.nodes[x].slice
  {
    hide Serves, Used, Turn, Count;
    assert Holds(m, t, x) && Holds(m', t, x) && QuantumLeft(m, t, x, k);
    if !Serves(t, x, k) {
      UsedWhenUnserved(t, x, k);
    } else if Used(t, x, k) + 1 == t.nodes[x].slice {
      SpentTurn(t, x, k);
    } else {
      TurnStep(t, x, k);
    }
  }

  lemma SpendingCursor(m: Mem, m': Mem, t: Tree, k: nat, g: Ptr)
    requires Paced(m, t, k) && SpentOnServed(m, m', t, k) && Busy(m', t)
    requires g in t.kids
    ensures CursorOnTurn(m', t, g, k)
  {
    assert CursorOnTurn(m, t, g, k) && Holds(m, t, g);
    assert m'[g] == m[g] || m'[g] == Spent(m[g]);
  }

  lemma SpendingRoot(m: Mem, m': Mem, t: Tree, k: nat)
    requires OnTime(m, t, k) && SpentOnServed(m, m', t, k)
    ensures Remaining(m', t.root) == U32_MAX - k - 1
  {
    assert Serves(t, t.root, k);
  }

  lemma DrainKeepsTime(m: Mem, m': Mem, t: Tree, k: nat)
    requires OnTime(m, t, k) && k + 1 < U32_MAX
    requires SpentOnServed(m, m', t, k)
    ensures Drained(m', t, k)
  {
    hide Serves, Used, Turn, Count;
    SpendingKeepsBusy(m, m', t);
    assert NodeOk(t, t.root) && Holds(m', t, t.root);
    SpendingRoot(m, m', t, k);
    forall x | x in t.nodes && x != t.root
      ensures QuantumLeft(m', t, x, k + 1)
      ensures Serves(t, x, k) ==> Remaining(m', x) + Used(t, x, k) + 1 == t.nodes[x].slice
    {
      SpendingQuantum(m, m', t, k, x);
    }
    forall g | g in t.kids ensures CursorOnTurn(m', t, g, k) {
      SpendingCursor(m, m', t, k, g);
    }
  }

  /** Below a served leaf nothing is served. */
  lemma {:induction false} LeafIsLowest(t: Tree, x: Ptr, leaf: Ptr, k: nat)
    requires Valid(t) && Staffed(t) && x in t.nodes && IsLeaf(t, leaf)
    requires Serves(t, x, k) && Serves(t, leaf, k)
    ensures t.nodes[x].level <= t.nodes[leaf].level
    decreases t.nodes[x].level
  {
    assert NodeOk(t, x);
    if x != t.root {
      LeafIsLowest(t, t.nodes[x].parent, leaf, k);
      if t.nodes[t.nodes[x].parent].level == t.nodes[leaf].level {
        ServesLevelUnique(t, t.nodes[x].parent, leaf, k);
      }
    }
  }

  // ----- the switch: who is out of quantum

  /** z is the outermost node on n's path with nothing left, or found when there is none. */
  ghost predicate IsOutermost(m: Mem, t: Tree, n: Ptr, found: Ptr, z: Ptr)
    requires Valid(t) && n in t.nodes
  {
    if forall x | Above(t, x, n) :: Remaining(m, x) > 0 then z == found
    else z in t.nodes && Above(t, z, n) && Remaining(m, z) == 0
         && forall x | Above(t, x, z) && x != z :: Remaining(m, x) > 0
  }

  lemma {:induction false} OutermostFound(m: Mem, t: Tree, n: Ptr, found: Ptr, budget: nat)
    requires Climbs(m, t) && n in t.nodes && t.nodes[n].level < budget
    ensures IsOutermost(m, t, n, found, OutermostExhausted(m, n, found, budget))
    decreases budget
  {
    assert NodeOk(t, n);
    var found1 := if m[n].remaining == 0 then n else found;
    if n == t.root {
      assert OutermostExhausted(m, NULL, found1, budget - 1) == found1;
    } else {
      OutermostFound(m, t, ParentOf(t, n), found1, budget - 1);
    }
  }

  // ----- the switch: spent nodes lose their place

  /** The fields the ring walks read, on a tree where everybody can run. */
  ghost predicate Rolling(m: Mem, t: Tree) {
    && Climbs(m, t)
    && Staffed(t)
    && forall x {:trigger m[x]} | x in t.nodes :: x in m && Rolls(m[x], t, x)
  }

  ghost predicate Rolls(c: Tcb, t: Tree, x: Ptr)
    requires Valid(t) && x in t.nodes
  {
    && !NotRunnable(c.state)
    && c.slice == t.nodes[x].slice
    && (c.kind.Group? <==> x in t.kids)
    && (x != t.root ==> c.next == After(t, x))
    && (x in t.kids && |t.kids[x]| > 0 ==> c.head == t.kids[x][0])
  }

  lemma BusyRolls(m: Mem, t: Tree)
    requires Busy(m, t)
    ensures Rolling(m, t)
  {
    RepresentsClimbs(m, t);
    forall x | x in t.nodes
      ensures x in m && Rolls(m[x], t, x)
    {
      assert Holds(m, t, x) && Runnable(m, x);
    }
  }

  lemma NextIsAfter(m: Mem, t: Tree, x: Ptr)
    requires Rolling(m, t) && x in t.nodes && x != t.root
    ensures NextRunnable(m, x) == After(t, x)
  {
    var y := After(t, x);
    assert m[x].next == y && !NotRunnable(m[y].state);
  }

  /** What one spent tick says about a served node, as seen in memory. */
  ghost predicate ServedLeft(m: Mem, t: Tree, k: nat)
    requires Valid(t) && Staffed(t)
  {
    forall x {:trigger Serves(t, x, k)} | x in t.nodes && x != t.root && Serves(t, x, k) ::
      Remaining(m, x) + Used(t, x, k) + 1 == t.nodes[x].slice
  }

  /** Whether or not n is spent, its parent's cursor ends up on tick k + 1's turn. */
  lemma RetireOneTurns(m: Mem, t: Tree, n: Ptr, k: nat)
    requires Rolling(m, t) && ServedLeft(m, t, k)
    requires n in t.nodes && n != t.root && Serves(t, n, k)
    requires Cursor(m, ParentOf(t, n)) == n
    ensures var g := ParentOf(t, n);
            RetireOne(m, n) == SetCursor(m, g, t.kids[g][Turn(t, g, k + 1)])
  {
    hide Serves, Used, Turn, Count;
    var g := ParentOf(t, n);
    NextIsAfter(m, t, n);
    TurnStep(t, n, k);
    assert m[n].parent == g;
    var y := After(t, n);
    assert m[y].parent == g;
    if m[n].remaining > 0 {
      ServedIsTurn(t, n, k);
      assert m[g].(cursor := n) == m[g];
    }
  }

  lemma ServedIsTurn(t: Tree, n: Ptr, k: nat)
    requires Valid(t) && Staffed(t) && n in t.nodes && n != t.root && Serves(t, n, k)
    ensures Serves(t, ParentOf(t, n), k) && t.kids[ParentOf(t, n)][Turn(t, ParentOf(t, n), k)] == n
  {
  }

  lemma RetireOneKeeps(m: Mem, t: Tree, g: Ptr, c: Ptr, k: nat)
    requires Rolling(m, t) && ServedLeft(m, t, k) && g in t.nodes
    ensures g in m && Rolling(SetCursor(m, g, c), t) && ServedLeft(SetCursor(m, g, c), t, k)
  {
    hide Serves, Used, Turn, Count;
    assert m[g].parent == t.nodes[g].parent;
  }

  ghost predicate Between(t: Tree, x: Ptr, z: Ptr, n: Ptr, k: nat)
    requires Valid(t) && Staffed(t) && z in t.nodes && n in t.nodes
  {
    x in t.kids && x in t.nodes && Serves(t, x, k) && t.nodes[z].level <= t.nodes[x].level < t.nodes[n].level
  }

  /** The cursors of the groups from z down to n's parent move on to tick k + 1. */
  lemma {:induction false} RetireMovesCursors(m: Mem, t: Tree, n: Ptr, z: Ptr, k: nat, budget: nat)
    requires Rolling(m, t) && ServedLeft(m, t, k)
    requires n in t.nodes && z in t.nodes && Serves(t, n, k) && Serves(t, z, k)
    requires t.nodes[z].level <= t.nodes[n].level <= t.nodes[z].level + budget
    requires forall g {:trigger m[g]} | Between(t, g, z, n, k) :: Cursor(m, g) == t.kids[g][Turn(t, g, k)]
    ensures RetireSpent(m, n, z, budget).Keys == m.Keys
    ensures forall x | x in m :: RetireSpent(m, n, z, budget)[x] ==
              if Between(t, x, z, n, k) then m[x].(cursor := t.kids[x][Turn(t, x, k + 1)]) else m[x]
    decreases budget
  {
    hide Serves, Used, Turn, Count, RetireOne, ServedLeft;
    if n != z {
      if t.nodes[z].level == t.nodes[n].level {
        ServesLevelUnique(t, z, n, k);
      }
      assert NodeOk(t, t.root) && NodeOk(t, n);
      var g := ParentOf(t, n);
      ServedIsTurn(t, n, k);
      assert Between(t, g, z, n, k) && g in m && m[g].cursor == n;
      RetireOneTurns(m, t, n, k);
      var m1 := RetireOne(m, n);
      RetireOneKeeps(m, t, g, t.kids[g][Turn(t, g, k + 1)], k);
      forall x | Between(t, x, z, n, k) ensures x == g || Between(t, x, z, g, k) {
        if t.nodes[x].level == t.nodes[g].level {
          ServesLevelUnique(t, x, g, k);
        }
      }
      forall x | Between(t, x, z, g, k) ensures Cursor(m1, x) == t.kids[x][Turn(t, x, k)] {
        assert Between(t, x, z, n, k) && x in m && m1[x] == m[x];
      }
      RetireMovesCursors(m1, t, g, z, k, budget - 1);
    }
  }

  // ----- the switch: down to the next leaf

  function Armed(c: Tcb): Tcb {
    if c.remaining == 0 then c.(remaining := if c.slice == 0 then 1 else c.slice) else c
  }

  ghost predicate ServedFrom(t: Tree, x: Ptr, low: nat, k: nat)
    requires Valid(t) && Staffed(t)
  {
    x in t.nodes && Serves(t, x, k) && low <= t.nodes[x].level
  }

  lemma ResumeIsCursor(m: Mem, t: Tree, g: Ptr, c: Ptr)
    requires Rolling(m, t) && g in t.kids && g in t.nodes && g in m
    requires c in t.nodes && c != t.root && ParentOf(t, c) == g && m[g].cursor == c
    ensures ResumeChild(m, g) == c
  {
    assert KidOk(t, g, 0);
    assert m[t.kids[g][0]].parent == g;
    assert m[c].next == After(t, c) && m[c].parent == g;
    assert After(t, c) != NULL;
  }

  /** m' is m with every node served at tick k from level low downwards armed. */
  ghost predicate ArmedFrom(m: Mem, m': Mem, t: Tree, low: nat, k: nat)
    requires Valid(t) && Staffed(t)
  {
    && m'.Keys == m.Keys
    && forall x {:trigger m'[x]} | x in m :: m'[x] == if ServedFrom(t, x, low, k) then Armed(m[x]) else m[x]
  }

  ghost predicate CursorsOnTurnFrom(m: Mem, t: Tree, low: nat, k: nat)
    requires Valid(t) && Staffed(t)
  {
    forall g {:trigger m[g]} {:trigger Cursor(m, g)} | g in t.kids && ServedFrom(t, g, low, k) ::
      Cursor(m, g) == t.kids[g][Turn(t, g, k)]
  }

  lemma ArmOnlyLeaf(m: Mem, t: Tree, p: Ptr, k: nat)
    requires Climbs(m, t) && Staffed(t) && IsLeaf(t, p) && Serves(t, p, k)
    ensures ArmedFrom(m, ArmIfNeeded(m, p), t, t.nodes[p].level, k)
  {
    hide Serves;
    assert m[p].parent == t.nodes[p].parent;
    forall x | ServedFrom(t, x, t.nodes[p].level, k) ensures x == p {
      LeafIsLowest(t, x, p, k);
      ServesLevelUnique(t, x, p, k);
    }
  }

  lemma ArmThenBelow(m: Mem, m': Mem, t: Tree, p: Ptr, k: nat)
    requires Climbs(m, t) && Staffed(t) && p in t.nodes && Serves(t, p, k)
    requires ArmedFrom(ArmIfNeeded(m, p), m', t, t.nodes[p].level + 1, k)
    ensures ArmedFrom(m, m', t, t.nodes[p].level, k)
  {
    hide Serves;
    assert m[p].parent == t.nodes[p].parent;
    var armed := ArmIfNeeded(m, p);
    assert armed == m[p := Armed(m[p])];
    forall x | ServedFrom(t, x, t.nodes[p].level, k) ensures x == p || ServedFrom(t, x, t.nodes[p].level + 1, k) {
      if t.nodes[x].level == t.nodes[p].level {
        ServesLevelUnique(t, x, p, k);
      }
    }
  }

  lemma {:induction false} DescendFollowsTurn(m: Mem, t: Tree, p: Ptr, k: nat, budget: nat)
    requires Rolling(m, t)
    requires p in t.nodes && Serves(t, p, k) && t.depth <= t.nodes[p].level + budget
    requires CursorsOnTurnFrom(m, t, t.nodes[p].level, k)
    ensures var (m', leaf) := DescendAndArm(m, p, budget);
            IsLeaf(t, leaf) && Serves(t, leaf, k) && ArmedFrom(m, m', t, t.nodes[p].level, k)
    decreases budget
  {
    hide Used, Turn, Count, Serves;
    assert NodeOk(t, p) && p in m && Rolls(m[p], t, p);
    if p in t.kids {
      var armed, c := ArmIfNeeded(m, p), t.kids[p][Turn(t, p, k)];
      TurnIsServed(t, p, k);
      ArmingRolls(m, t, p);
      assert Cursor(m, p) == c;
      ResumeIsCursor(armed, t, p, c);
      assert SetCursor(armed, p, c) == armed;
      assert c in armed && Rolls(armed[c], t, c);
      ArmingKeepsCursors(m, t, p, k);
      DescendFollowsTurn(armed, t, c, k, budget - 1);
      ArmThenBelow(m, DescendAndArm(m, p, budget).0, t, p, k);
    } else {
      ArmOnlyLeaf(m, t, p, k);
    }
  }

  lemma ArmingKeepsCursors(m: Mem, t: Tree, p: Ptr, k: nat)
    requires Rolling(m, t) && p in t.nodes && CursorsOnTurnFrom(m, t, t.nodes[p].level, k)
    ensures CursorsOnTurnFrom(ArmIfNeeded(m, p), t, t.nodes[p].level + 1, k)
  {
    hide Used, Turn, Count, Serves;
    var armed := ArmIfNeeded(m, p);
    forall g | g in t.kids && ServedFrom(t, g, t.nodes[p].level + 1, k)
      ensures Cursor(armed, g) == t.kids[g][Turn(t, g, k)]
    {
      assert Cursor(m, g) == t.kids[g][Turn(t, g, k)];
    }
  }

  lemma ArmingRolls(m: Mem, t: Tree, p: Ptr)
    requires Rolling(m, t) && p in t.nodes
    ensures Rolling(ArmIfNeeded(m, p), t)
  {
    var armed := ArmIfNeeded(m, p);
    forall x | x in t.nodes
      ensures x in armed && Rolls(armed[x], t, x) && armed[x].parent == t.nodes[x].parent
    {
      assert Rolls(m[x], t, x);
    }
  }

  lemma TurnIsServed(t: Tree, g: Ptr, k: nat)
    requires Valid(t) && Staffed(t) && g in t.kids && g in t.nodes && Serves(t, g, k)
    ensures var c := t.kids[g][Turn(t, g, k)];
            c in t.nodes && c != t.root && ParentOf(t, c) == g && Serves(t, c, k)
  {
    assert KidOk(t, g, Turn(t, g, k));
  }

  // ----- the switch: nobody is spent

  /** A served node with quantum left is still served by the next tick. */
  lemma StillTurn(m: Mem, t: Tree, x: Ptr, k: nat)
    requires Valid(t) && Staffed(t) && ServedLeft(m, t, k)
    requires x in t.nodes && x != t.root && Serves(t, x, k) && Remaining(m, x) > 0
    ensures Serves(t, ParentOf(t, x), k)
    ensures Turn(t, ParentOf(t, x), k + 1) == Turn(t, ParentOf(t, x), k) == t.nodes[x].pos
  {
    hide Used, Turn, Count;
    TurnStep(t, x, k);
  }

  lemma {:induction false} ServedAgain(m: Mem, t: Tree, n: Ptr, k: nat)
    requires Valid(t) && Staffed(t) && ServedLeft(m, t, k)
    requires n in t.nodes && Serves(t, n, k)
    requires forall x | Above(t, x, n) && x != t.root :: Remaining(m, x) > 0
    ensures Serves(t, n, k + 1)
    decreases t.nodes[n].level
  {
    hide Used, Turn, Count;
    if n != t.root {
      StillTurn(m, t, n, k);
      ServedAgain(m, t, ParentOf(t, n), k);
    }
  }

  /** Groups whose served child (if any) has quantum left keep their turn. */
  lemma GroupKeepsTurn(m: Mem, t: Tree, g: Ptr, k: nat)
    requires Valid(t) && Staffed(t) && ServedLeft(m, t, k) && g in t.kids && g in t.nodes
    requires Serves(t, g, k) ==> Remaining(m, t.kids[g][Turn(t, g, k)]) > 0
    ensures Turn(t, g, k + 1) == Turn(t, g, k)
  {
    hide Used, Turn, Count, Serves;
    if Serves(t, g, k) {
      TurnIsServed(t, g, k);
      StillTurn(m, t, t.kids[g][Turn(t, g, k)], k);
    } else {
      PausedTurn(t, g, k);
    }
  }

  lemma NoSwitch(m: Mem, t: Tree, cur: Ptr, k: nat)
    requires Drained(m, t, k) && IsLeaf(t, cur) && Serves(t, cur, k)
    requires forall x | Above(t, x, cur) :: Remaining(m, x) > 0
    ensures OnTime(m, t, k + 1) && Serves(t, cur, k + 1)
  {
    hide Used, Turn, Count, Serves;
    ServedAgain(m, t, cur, k);
    forall g | g in t.kids ensures CursorOnTurn(m, t, g, k + 1) {
      assert CursorOnTurn(m, t, g, k);
      if Serves(t, g, k) {
        TurnIsServed(t, g, k);
        OnlyPathServed(t, t.kids[g][Turn(t, g, k)], cur, k);
      }
      GroupKeepsTurn(m, t, g, k);
    }
    forall x | x in t.nodes && Serves(t, x, k + 1) ensures Remaining(m, x) > 0 {
      OnlyPathServed(t, x, cur, k + 1);
    }
  }

  lemma OnlyPathServed(t: Tree, x: Ptr, cur: Ptr, k: nat)
    requires Valid(t) && Staffed(t) && x in t.nodes && IsLeaf(t, cur)
    requires Serves(t, x, k) && Serves(t, cur, k)
    ensures Above(t, x, cur)
  {
    LeafIsLowest(t, x, cur, k);
    ServedPath(t, x, cur, k);
  }

  // ----- the switch: the turn passes from z to its neighbour

  /** Memory between retiring the spent nodes below z and advancing z's own ring. */
  ghost predicate Retired(m: Mem, m2: Mem, t: Tree, z: Ptr, cur: Ptr, k: nat)
    requires Valid(t) && Staffed(t) && z in t.nodes && cur in t.nodes
  {
    && m2.Keys == m.Keys
    && forall x {:trigger m2[x]} | x in m :: m2[x] ==
         if Between(t, x, z, cur, k) then m[x].(cursor := t.kids[x][Turn(t, x, k + 1)]) else m[x]
  }

  /** What is known when z is the outermost spent node on the path of cur. */
  ghost predicate Closing(m: Mem, t: Tree, z: Ptr, cur: Ptr, k: nat) {
    && Drained(m, t, k)
    && IsLeaf(t, cur) && Serves(t, cur, k)
    && z in t.nodes && z != t.root && Above(t, z, cur)
    && Remaining(m, z) == 0
    && forall x | Above(t, x, z) && x != z :: Remaining(m, x) > 0
  }

  lemma ClosingServes(m: Mem, t: Tree, z: Ptr, cur: Ptr, k: nat)
    requires Closing(m, t, z, cur, k)
    ensures Serves(t, z, k)
    ensures Serves(t, ParentOf(t, z), k) && Serves(t, ParentOf(t, z), k + 1)
    ensures After(t, z) in t.nodes && Serves(t, After(t, z), k + 1)
    ensures t.kids[ParentOf(t, z)][Turn(t, ParentOf(t, z), k + 1)] == After(t, z)
  {
    hide Used, Turn, Count;
    var g := ParentOf(t, z);
    ServedPath(t, z, cur, k);
    ServedIsTurn(t, z, k);
    forall x | Above(t, x, g) && x != t.root ensures Remaining(m, x) > 0 {
      AboveLevel(t, x, g);
    }
    ServedAgain(m, t, g, k);
    TurnStep(t, z, k);
    assert KidOk(t, g, Turn(t, g, k + 1));
  }

  /** After retiring, every cursor is on tick k + 1's turn, except the one z sits under. */
  lemma RetiredCursor(m: Mem, m2: Mem, t: Tree, z: Ptr, cur: Ptr, k: nat, g: Ptr)
    requires Closing(m, t, z, cur, k) && Retired(m, m2, t, z, cur, k)
    requires g in t.kids && g in t.nodes && g != ParentOf(t, z)
    ensures Cursor(m2, g) == t.kids[g][Turn(t, g, k + 1)]
  {
    hide Used, Turn, Count, Serves;
    assert CursorOnTurn(m, t, g, k) && Holds(m, t, g);
    if !Between(t, g, z, cur, k) {
      if Serves(t, g, k) {
        ClosingServes(m, t, z, cur, k);
        LeafIsLowest(t, g, cur, k);
        if t.nodes[g].level == t.nodes[cur].level {
          ServesLevelUnique(t, g, cur, k);
        }
        if t.nodes[g].level == t.nodes[ParentOf(t, z)].level {
          ServesLevelUnique(t, g, ParentOf(t, z), k);
        }
        var c := t.kids[g][Turn(t, g, k)];
        TurnIsServed(t, g, k);
        ServedPath(t, c, z, k);
      }
      GroupKeepsTurn(m, t, g, k);
    }
  }

  lemma RetiringGives(m: Mem, t: Tree, z: Ptr, cur: Ptr, k: nat, budget: nat)
    requires Closing(m, t, z, cur, k) && t.depth <= budget
    ensures Retired(m, RetireSpent(m, cur, z, budget), t, z, cur, k)
  {
    hide Used, Turn, Count, Serves;
    ClosingServes(m, t, z, cur, k);
    AboveLevel(t, z, cur);
    BusyRolls(m, t);
    assert NodeOk(t, cur);
    forall g | Between(t, g, z, cur, k) ensures Cursor(m, g) == t.kids[g][Turn(t, g, k)] {
      assert CursorOnTurn(m, t, g, k);
    }
    RetireMovesCursors(m, t, cur, z, k, budget);
  }

  lemma RetiredRolls(m: Mem, m2: Mem, t: Tree, z: Ptr, cur: Ptr, k: nat)
    requires Closing(m, t, z, cur, k) && Retired(m, m2, t, z, cur, k)
    ensures Rolling(m2, t)
  {
    hide Used, Turn, Count, Serves;
    BusyRolls(m, t);
    forall x | x in t.nodes
      ensures x in m2 && Rolls(m2[x], t, x) && m2[x].parent == t.nodes[x].parent
    {
      assert x in m && Rolls(m[x], t, x);
    }
  }

  /** Retiring and advancing, put together: cursors of tick k + 1 everywhere, quanta armed
      from z's neighbour downwards, all else as it was. */
  ghost predicate Switched(m: Mem, m3: Mem, t: Tree, z: Ptr, k: nat)
    requires Valid(t) && Staffed(t) && z in t.nodes && z != t.root
  {
    && m3.Keys == m.Keys
    && (forall g {:trigger Cursor(m3, g)} | g in t.kids :: Cursor(m3, g) == t.kids[g][Turn(t, g, k + 1)])
    && (forall x {:trigger m3[x]} | x in m :: SwitchedNode(m[x], m3[x], t, x, z, k))
  }

  ghost predicate SwitchedNode(c: Tcb, c3: Tcb, t: Tree, x: Ptr, z: Ptr, k: nat)
    requires Valid(t) && Staffed(t) && z in t.nodes
  {
    && c3 == c.(cursor := c3.cursor, remaining := c3.remaining)
    && (x !in t.kids ==> c3.cursor == c.cursor)
    && c3.remaining == if ServedFrom(t, x, t.nodes[z].level, k + 1) then Armed(c).remaining else c.remaining
  }

  lemma AdvanceSwitches(m: Mem, m2: Mem, t: Tree, z: Ptr, cur: Ptr, k: nat, limit: nat)
    requires Closing(m, t, z, cur, k) && Retired(m, m2, t, z, cur, k)
    requires t.depth <= limit
    ensures var (m3, leaf) := AdvanceFrom(m2, ParentOf(t, z), limit, limit);
            IsLeaf(t, leaf) && Serves(t, leaf, k + 1) && Switched(m, m3, t, z, k)
  {
    hide Used, Turn, Count, Serves, ServedFrom;
    var g, p := ParentOf(t, z), After(t, z);
    ClosingServes(m, t, z, cur, k);
    RetiredRolls(m, m2, t, z, cur, k);
    assert NodeOk(t, z) && NodeOk(t, p);
    ScanBeginsAfter(m, m2, t, z, cur, k);
    RetiredFrom(m, m2, t, z, cur, k);
    DescendFollowsTurn(m2, t, p, k + 1, limit);
    var (m', leaf) := DescendAndArm(m2, p, limit);
    assert g in m';
    assert leaf in m' && p in m2 && Rolls(m2[p], t, p);
    assert AdvanceFrom(m2, g, limit, limit) == (SetCursor(m', g, p), leaf);
    SwitchComposes(m, m2, m', t, z, cur, k);
  }

  lemma SwitchComposes(m: Mem, m2: Mem, m': Mem, t: Tree, z: Ptr, cur: Ptr, k: nat)
    requires Closing(m, t, z, cur, k) && Retired(m, m2, t, z, cur, k)
    requires ArmedFrom(m2, m', t, t.nodes[z].level, k + 1)
    requires ParentOf(t, z) in m'
    ensures Switched(m, SetCursor(m', ParentOf(t, z), After(t, z)), t, z, k)
  {
    hide Used, Turn, Count, Serves, ServedFrom;
    var g, p := ParentOf(t, z), After(t, z);
    ClosingServes(m, t, z, cur, k);
    var m3 := SetCursor(m', g, p);
    forall h | h in t.kids ensures Cursor(m3, h) == t.kids[h][Turn(t, h, k + 1)] {
      if h != g {
        RetiredCursor(m, m2, t, z, cur, k, h);
        assert Cursor(m', h) == Cursor(m2, h);
      }
    }
    forall x | x in m ensures SwitchedNode(m[x], m3[x], t, x, z, k) {
      SwitchNodeComposes(m, m2, m', t, z, cur, k, x);
    }
  }

  lemma SwitchNodeComposes(m: Mem, m2: Mem, m': Mem, t: Tree, z: Ptr, cur: Ptr, k: nat, x: Ptr)
    requires Closing(m, t, z, cur, k) && Retired(m, m2, t, z, cur, k)
    requires ArmedFrom(m2, m', t, t.nodes[z].level, k + 1)
    requires ParentOf(t, z) in m' && x in m
    ensures SwitchedNode(m[x], SetCursor(m', ParentOf(t, z), After(t, z))[x], t, x, z, k)
  {
    hide Used, Turn, Count, Serves, ServedFrom;
    assert x in m2 && x in m';
  }

  lemma ScanBeginsAfter(m: Mem, m2: Mem, t: Tree, z: Ptr, cur: Ptr, k: nat)
    requires Closing(m, t, z, cur, k) && Retired(m, m2, t, z, cur, k)
    ensures var g := ParentOf(t, z);
            g in m2 && Linked(m2, Head(m2, g)) && ScanStart(m2, g) == After(t, z)
  {
    hide Used, Turn, Count, Serves;
    var g := ParentOf(t, z);
    ClosingServes(m, t, z, cur, k);
    RetiredRolls(m, m2, t, z, cur, k);
    ServedIsTurn(t, z, k);
    assert CursorOnTurn(m, t, g, k) && Holds(m, t, g);
    assert !Between(t, g, z, cur, k) && m2[g].cursor == z;
    assert Rolls(m2[z], t, z) && Rolls(m2[g], t, g) && m2[z].parent == g;
    assert KidOk(t, g, 0);
    var h := t.kids[g][0];
    assert Rolls(m2[h], t, h);
    assert After(t, h) != NULL && After(t, z) != NULL;
  }

  lemma RetiredFrom(m: Mem, m2: Mem, t: Tree, z: Ptr, cur: Ptr, k: nat)
    requires Closing(m, t, z, cur, k) && Retired(m, m2, t, z, cur, k)
    ensures CursorsOnTurnFrom(m2, t, t.nodes[z].level, k + 1)
  {
    hide Used, Turn, Count, Serves;
    forall g | g in t.kids && ServedFrom(t, g, t.nodes[z].level, k + 1)
      ensures Cursor(m2, g) == t.kids[g][Turn(t, g, k + 1)]
    {
      RetiredCursor(m, m2, t, z, cur, k, g);
    }
  }

  lemma SwitchedHolds(m: Mem, m3: Mem, t: Tree, z: Ptr, cur: Ptr, k: nat, x: Ptr)
    requires Closing(m, t, z, cur, k) && Switched(m, m3, t, z, k) && x in t.nodes
    ensures Holds(m3, t, x) && Runnable(m3, x) && QuantumLeft(m3, t, x, k + 1)
  {
    hide Used, Turn, Count, Serves, ServedFrom;
    assert Holds(m, t, x) && Runnable(m, x) && QuantumLeft(m, t, x, k + 1) && NodeOk(t, x);
    assert SwitchedNode(m[x], m3[x], t, x, z, k);
    if x in t.kids {
      assert Cursor(m3, x) == t.kids[x][Turn(t, x, k + 1)];
      assert KidOk(t, x, Turn(t, x, k + 1));
    }
  }

  lemma SwitchedServed(m: Mem, m3: Mem, t: Tree, z: Ptr, cur: Ptr, k: nat, x: Ptr)
    requires Closing(m, t, z, cur, k) && Switched(m, m3, t, z, k)
    requires x in t.nodes && Serves(t, x, k + 1)
    ensures Remaining(m3, x) > 0
  {
    hide Used, Turn, Count, Serves;
    assert NodeOk(t, x) && Holds(m, t, x);
    assert SwitchedNode(m[x], m3[x], t, x, z, k);
    if t.nodes[x].level < t.nodes[z].level {
      ClosingServes(m, t, z, cur, k);
      ServedPath(t, x, ParentOf(t, z), k + 1);
      assert Above(t, x, z);
    }
  }

  lemma SwitchedBusy(m: Mem, m3: Mem, t: Tree, z: Ptr, cur: Ptr, k: nat)
    requires Closing(m, t, z, cur, k) && Switched(m, m3, t, z, k)
    ensures Busy(m3, t)
    ensures forall x {:trigger QuantumLeft(m3, t, x, k + 1)} | x in t.nodes :: QuantumLeft(m3, t, x, k + 1)
  {
    hide Used, Turn, Count, Serves, ServedFrom, Holds, Runnable, QuantumLeft;
    forall x | x in t.nodes ensures Holds(m3, t, x) && Runnable(m3, x) && QuantumLeft(m3, t, x, k + 1) {
      SwitchedHolds(m, m3, t, z, cur, k, x);
    }
    forall x | x in m3 ensures !m3[x].state.Blocked? {
      assert SwitchedNode(m[x], m3[x], t, x, z, k);
    }
  }

  lemma SwitchKeepsTime(m: Mem, m3: Mem, t: Tree, z: Ptr, cur: Ptr, k: nat)
    requires Closing(m, t, z, cur, k) && Switched(m, m3, t, z, k)
    ensures OnTime(m3, t, k + 1)
  {
    hide Used, Turn, Count, Serves, ServedFrom, QuantumLeft;
    assert NodeOk(t, t.root) && Holds(m, t, t.root) && NodeOk(t, z);
    assert SwitchedNode(m[t.root], m3[t.root], t, t.root, z, k);
    RootStaysUnarmed(t, z, k + 1);
    SwitchedBusy(m, m3, t, z, cur, k);
    forall x | x in t.nodes && Serves(t, x, k + 1) ensures Remaining(m3, x) > 0 {
      SwitchedServed(m, m3, t, z, cur, k, x);
    }
    forall g | g in t.kids ensures CursorOnTurn(m3, t, g, k + 1) {
      assert Cursor(m3, g) == t.kids[g][Turn(t, g, k + 1)];
    }
  }

  lemma RootStaysUnarmed(t: Tree, z: Ptr, k: nat)
    requires Valid(t) && Staffed(t) && z in t.nodes && z != t.root
    ensures !ServedFrom(t, t.root, t.nodes[z].level, k)
  {
    assert NodeOk(t, z) && NodeOk(t, t.root);
  }

  // ----- one tick of the kernel

  lemma PickKeepsTime(m: Mem, t: Tree, cur: Ptr, k: nat, limit: nat)
    requires Drained(m, t, k) && IsLeaf(t, cur) && Serves(t, cur, k) && t.depth <= limit
    ensures var (m3, leaf) := PickNextLeaf(m, t.root, cur, limit);
            OnTime(m3, t, k + 1) && IsLeaf(t, leaf) && Serves(t, leaf, k + 1)
  {
    hide Used, Turn, Count, Serves, OnTime, AdvanceFrom, RetireSpent, OutermostExhausted;
    RepresentsClimbs(m, t);
    assert NodeOk(t, cur) && Holds(m, t, cur) && Runnable(m, cur) && Holds(m, t, t.root);
    OutermostFound(m, t, cur, NULL, limit);
    var z := OutermostExhausted(m, cur, NULL, limit);
    if z == NULL {
      NoSwitch(m, t, cur, k);
    } else {
      assert z != t.root;
      RetiringGives(m, t, z, cur, k, limit + 1);
      var m2 := RetireSpent(m, cur, z, limit + 1);
      RetiredRolls(m, m2, t, z, cur, k);
      assert m2[z].parent == ParentOf(t, z);
      assert ParentOf(t, z) in m2;
      AdvanceSwitches(m, m2, t, z, cur, k, limit);
      SwitchKeepsTime(m, AdvanceFrom(m2, ParentOf(t, z), limit, limit).0, t, z, cur, k);
    }
  }

  lemma HandOverNode(m: Mem, t: Tree, cur: Ptr, next: Ptr, x: Ptr)
    requires Busy(m, t) && IsLeaf(t, cur) && IsLeaf(t, next) && next in m && x in t.nodes
    ensures var m' := HandOver(m, cur, next);
            && Holds(m', t, x) && Runnable(m', x)
            && Remaining(m', x) == Remaining(m, x) && Cursor(m', x) == Cursor(m, x)
  {
    assert Holds(m, t, x) && Runnable(m, x);
  }

  lemma HandOverKeepsTime(m: Mem, t: Tree, cur: Ptr, next: Ptr, k: nat)
    requires Paced(m, t, k) && IsLeaf(t, cur) && IsLeaf(t, next) && next in m
    ensures Paced(HandOver(m, cur, next), t, k)
    ensures Remaining(HandOver(m, cur, next), t.root) == Remaining(m, t.root)
  {
    hide Used, Turn, Count, Serves, Holds;
    var m' := HandOver(m, cur, next);
    forall x | x in t.nodes
      ensures Holds(m', t, x) && Runnable(m', x)
      ensures Remaining(m', x) == Remaining(m, x) && Cursor(m', x) == Cursor(m, x)
    {
      HandOverNode(m, t, cur, next, x);
    }
    forall x | x in t.nodes ensures QuantumLeft(m', t, x, k) {
      assert QuantumLeft(m, t, x, k);
    }
    forall g | g in t.kids ensures CursorOnTurn(m', t, g, k) {
      assert CursorOnTurn(m, t, g, k);
    }
  }

  lemma {:induction false} NobodyExpires(m: Mem, visited: seq<Ptr>, now: nat)
    requires forall x | x in m :: !m[x].state.Blocked?
    ensures Sweep(m, visited, ExpireOne(now)) == m
  {
    if visited != [] {
      var p := visited[0];
      if p in m {
        assert m[p := ExpireOne(now)(m[p])] == m;
      }
      NobodyExpires(m, visited[1..], now);
    }
  }

  lemma TickKeepsTime(s: State, t: Tree, k: nat)
    requires AtTick(s, t, k) && k + 1 < U32_MAX
    ensures var (s', leaf) := Tick(s);
            AtTick(s', t, k + 1) && leaf == s'.current && s'.ticks == s.ticks + 1
  {
    hide Used, Turn, Count, Serves, PickNextLeaf, DrainPath, Sweep, HandOver;
    var limit, cur := WalkLimit(s.nodes), s.current;
    var m := DrainPath(s.mem, cur, limit);
    DrainSpendsServed(s.mem, t, cur, k, limit);
    DrainKeepsTime(s.mem, m, t, k);
    NobodyExpires(m, Visited(s.(ticks := s.ticks + 1, mem := m)), s.ticks + 1);
    assert OnTick(s) == s.(ticks := s.ticks + 1, mem := m);
    PickKeepsTime(m, t, cur, k, limit);
    var (m3, leaf) := PickNextLeaf(m, t.root, cur, limit);
    assert Holds(m, t, cur) && Holds(m3, t, leaf);
    assert After(t, cur) != NULL && After(t, leaf) != NULL;
    if leaf != cur {
      HandOverKeepsTime(m3, t, cur, leaf, k + 1);
    }
  }

  // ----- whole runs

  function Ticks(s: State, n: nat): State {
    if n == 0 then s else Tick(Ticks(s, n - 1)).0
  }

  /** A tree as the kernel builds it before the first tick: full quanta, every cursor on
      the first child, and the CPU on the leaf all cursors lead to. */
  ghost predicate Fresh(s: State, t: Tree) {
    && Busy(s.mem, t)
    && s.root == t.root
    && t.depth <= s.nodes
    && t.nodes[t.root].slice == U32_MAX
    && (forall g {:trigger Cursor(s.mem, g)} | g in t.kids :: Cursor(s.mem, g) == t.kids[g][0])
    && (forall x {:trigger Remaining(s.mem, x)} | x in t.nodes :: Remaining(s.mem, x) == t.nodes[x].slice)
    && s.current == LeafAt(t, t.root, 0)
  }

  lemma {:induction false} NothingCounted(t: Tree, x: Ptr)
    requires Valid(t) && Staffed(t) && x in t.nodes
    ensures Count(t, x, 0) == 0
    decreases t.nodes[x].level
  {
    if x != t.root {
      NothingCounted(t, ParentOf(t, x));
      PrefixAtLeast(Slices(t, ParentOf(t, x)), |Slices(t, ParentOf(t, x))|);
    }
  }

  lemma {:induction false} LeafIsServed(t: Tree, x: Ptr, k: nat)
    requires Valid(t) && Staffed(t) && x in t.nodes && Serves(t, x, k)
    ensures Serves(t, LeafAt(t, x, Count(t, x, k)), k)
    decreases t.depth - t.nodes[x].level
  {
    hide Share, OwnerOfTick;
    if x in t.kids {
      TurnIsServed(t, x, k);
      var c := t.kids[x][Turn(t, x, k)];
      assert NodeOk(t, c) && KidOk(t, x, Turn(t, x, k));
      LeafIsServed(t, c, k);
    }
  }

  lemma FreshTurns(t: Tree, g: Ptr)
    requires Valid(t) && Staffed(t) && g in t.kids && g in t.nodes
    ensures Turn(t, g, 0) == 0
    ensures forall x | x in t.nodes && x != t.root && ParentOf(t, x) == g :: Used(t, x, 0) == 0
  {
    hide Count;
    NothingCounted(t, g);
    var s := Slices(t, g);
    PrefixAtLeast(s, |s|);
    assert Prefix(s, 0) == 0 && Prefix(s, 1) == s[0];
    OwnerUnique(s, 0, 0);
  }

  /** Ready for tick number zero. */
  ghost predicate Started(s: State, t: Tree) {
    AtTick(s, t, 0)
  }

  lemma FreshAtTick(s: State, t: Tree)
    requires Fresh(s, t)
    ensures Started(s, t)
  {
    hide Used, Turn, Count;
    LeafIsServed(t, t.root, 0);
    NothingCounted(t, t.root);
    assert NodeOk(t, t.root);
    forall g | g in t.kids ensures CursorOnTurn(s.mem, t, g, 0) {
      FreshTurns(t, g);
    }
    forall x | x in t.nodes ensures QuantumLeft(s.mem, t, x, 0) && Remaining(s.mem, x) > 0 {
      assert NodeOk(t, x);
      if x != t.root {
        FreshTurns(t, ParentOf(t, x));
      }
    }
  }

  lemma {:induction false} RunKeepsTime(s: State, t: Tree, k: nat)
    requires Started(s, t) && k < U32_MAX
    ensures AtTick(Ticks(s, k), t, k)
    ensures k > 0 ==> Tick(Ticks(s, k - 1)).1 == Ticks(s, k).current
  {
    hide AtTick, Tick;
    if k > 0 {
      RunKeepsTime(s, t, k - 1);
      TickKeepsTime(Ticks(s, k - 1), t, k - 1);
    }
  }

  /** The k-th tick hands the CPU to the leaf that hierarchical weighted round robin names,
      for as long as the root's own quantum lasts. */
  lemma RunIsRoundRobin(s: State, t: Tree, k: nat)
    requires Started(s, t) && k < U32_MAX
    ensures Ticks(s, k).current == LeafAt(t, t.root, k)
    ensures k > 0 ==> Tick(Ticks(s, k - 1)).1 == LeafAt(t, t.root, k)
  {
    hide Tick, Ticks, Count;
    RunKeepsTime(s, t, k);
    var leaf := Ticks(s, k).current;
    ServedLeaf(t, leaf, k);
    assert LeafAt(t, leaf, Count(t, leaf, k)) == leaf;
  }

  /** In particular for a kernel that starts fresh. */
  lemma FreshRunIsRoundRobin(s: State, t: Tree, k: nat)
    requires Fresh(s, t) && k < U32_MAX
    ensures Ticks(s, k).current == LeafAt(t, t.root, k)
  {
    hide Fresh, Ticks, LeafAt;
    FreshAtTick(s, t);
    RunIsRoundRobin(s, t, k);
  }
}
