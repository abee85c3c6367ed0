/**
  The effect of the loops that climb from a node to the root, on memory that holds a tree.
 */
module Climb {
  import opened Tree
  import opened Memory
  import opened Dispatch

  /** Enough of Represents to climb to the root. */
  ghost predicate Climbs(m: Mem, t: Tree) {
    && Valid(t)
    && NULL !in m
    && forall x {:trigger m[x]} {:trigger x in m} | x in t.nodes :: x in m && m[x].parent == t.nodes[x].parent
  }

  lemma RepresentsClimbs(m: Mem, t: Tree)
    requires Represents(m, t)
    ensures Climbs(m, t)
  {
    forall x | x in t.nodes ensures x in m && m[x].parent == t.nodes[x].parent {
      assert Holds(m, t, x);
    }
  }

  function Spent(c: Tcb): Tcb {
    c.(remaining := if c.remaining == 0 then 0 else c.remaining - 1)
  }

  /** A tick spends one from the running node and from each of its ancestors, and touches
      nothing else. */
  lemma {:induction false} DrainSpendsPath(m: Mem, t: Tree, n: Ptr, budget: nat)
    requires Climbs(m, t)
    requires n in t.nodes && t.nodes[n].level < budget
    ensures DrainPath(m, n, budget).Keys == m.Keys
    ensures forall x | x in m :: DrainPath(m, n, budget)[x] == if Above(t, x, n) then Spent(m[x]) else m[x]
    decreases budget
  {
    var m1 := m[n := Spent(m[n])];
    assert NodeOk(t, n);
    if n == t.root {
      assert DrainPath(m1, NULL, budget - 1) == m1;
    } else {
      var g := ParentOf(t, n);
      DrainSpendsPath(m1, t, g, budget - 1);
      if Above(t, n, g) {
        AboveLevel(t, n, g);
      }
    }
  }
}
