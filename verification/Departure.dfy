/**
  An exit keeps the tree a tree: the ring closes over the node that left, and neither the
  head nor the cursor of its parent is left behind on it.
 */
module Departure {
  import opened RoundRobin
  import opened Tree
  import opened Memory
  import opened Dispatch
  import opened Rings
  import opened Lifecycle

  ghost function Removed(ring: seq<Ptr>, at: nat): seq<Ptr>
    requires at < |ring|
  {
    ring[..at] + ring[at + 1..]
  }

  lemma RemovedAt(ring: seq<Ptr>, at: nat, i: nat)
    requires at < |ring| && i < |ring| - 1
    ensures |Removed(ring, at)| == |ring| - 1
    ensures Removed(ring, at)[i] == if i < at then ring[i] else ring[i + 1]
  {
  }

  ghost function Closed(n: Info, g: Ptr, at: nat): Info {
    if n.parent == g && at < n.pos then n.(pos := n.pos - 1) else n
  }

  /** The tree without the leaf x. */
  ghost function Pruned(t: Tree, x: Ptr): Tree
    requires Valid(t) && IsLeaf(t, x) && x != t.root
  {
    var g, at := ParentOf(t, x), t.nodes[x].pos;
    t.(nodes := map y | y in t.nodes && y != x :: Closed(t.nodes[y], g, at),
       kids := t.kids[g := Removed(t.kids[g], at)])
  }

  lemma PrunedNode(t: Tree, x: Ptr, y: Ptr)
    requires Valid(t) && IsLeaf(t, x) && x != t.root && y in t.nodes && y != x
    ensures y in Pruned(t, x).nodes && NodeOk(Pruned(t, x), y)
  {
    var g, at := ParentOf(t, x), t.nodes[x].pos;
    assert NodeOk(t, y) && NodeOk(t, g);
    if y != t.root && ParentOf(t, y) == g {
      var i := t.nodes[y].pos;
      if i < at {
        RemovedAt(t.kids[g], at, i);
      } else {
        RemovedAt(t.kids[g], at, i - 1);
      }
    }
  }

  lemma PrunedKid(t: Tree, x: Ptr, h: Ptr, i: nat)
    requires Valid(t) && IsLeaf(t, x) && x != t.root
    requires h in Pruned(t, x).kids && i < |Pruned(t, x).kids[h]|
    ensures KidOk(Pruned(t, x), h, i)
  {
    var g, at := ParentOf(t, x), t.nodes[x].pos;
    if h == g {
      RemovedAt(t.kids[g], at, i);
      assert KidOk(t, g, if i < at then i else i + 1);
    } else {
      assert KidOk(t, h, i);
    }
  }

  lemma PrunedValid(t: Tree, x: Ptr)
    requires Valid(t) && IsLeaf(t, x) && x != t.root
    ensures Valid(Pruned(t, x))
  {
    var t' := Pruned(t, x);
    forall y | y in t'.nodes ensures NodeOk(t', y) {
      PrunedNode(t, x, y);
    }
    forall h, i | h in t'.kids && 0 <= i < |t'.kids[h]| ensures KidOk(t', h, i) {
      PrunedKid(t, x, h, i);
    }
  }

  lemma PrunedNeighbours(t: Tree, x: Ptr, y: Ptr)
    requires Valid(t) && IsLeaf(t, x) && x != t.root
    requires y in t.nodes && y != x && y != t.root
    ensures Valid(Pruned(t, x)) && y in Pruned(t, x).nodes
    ensures After(Pruned(t, x), y) == if After(t, y) == x then After(t, x) else After(t, y)
    ensures Before(Pruned(t, x), y) == if Before(t, y) == x then Before(t, x) else Before(t, y)
  {
    hide After, Before;
    PrunedValid(t, x);
    PrunedAfter(t, x, y);
    PrunedBefore(t, x, y);
  }

  lemma PrunedAfter(t: Tree, x: Ptr, y: Ptr)
    requires Valid(t) && IsLeaf(t, x) && x != t.root && Valid(Pruned(t, x))
    requires y in t.nodes && y != x && y != t.root
    ensures y in Pruned(t, x).nodes
    ensures After(Pruned(t, x), y) == if After(t, y) == x then After(t, x) else After(t, y)
  {
    var t', g, at := Pruned(t, x), ParentOf(t, x), t.nodes[x].pos;
    if ParentOf(t, y) == g {
      var i', n := t'.nodes[y].pos, |t.kids[g]|;
      RemovedAt(t.kids[g], at, Succ(i', n - 1));
      assert KidOk(t, g, Succ(t.nodes[y].pos, n));
    } else {
      assert KidOk(t, g, at);
    }
  }

  lemma PrunedBefore(t: Tree, x: Ptr, y: Ptr)
    requires Valid(t) && IsLeaf(t, x) && x != t.root && Valid(Pruned(t, x))
    requires y in t.nodes && y != x && y != t.root
    ensures y in Pruned(t, x).nodes
    ensures Before(Pruned(t, x), y) == if Before(t, y) == x then Before(t, x) else Before(t, y)
  {
    var t', g, at := Pruned(t, x), ParentOf(t, x), t.nodes[x].pos;
    if ParentOf(t, y) == g {
      var i', n := t'.nodes[y].pos, |t.kids[g]|;
      RemovedAt(t.kids[g], at, Pred(i', n - 1));
      assert KidOk(t, g, Pred(t.nodes[y].pos, n));
    } else {
      assert KidOk(t, g, at);
    }
  }

  lemma PrunedNodes(t: Tree, x: Ptr)
    requires Valid(t) && IsLeaf(t, x) && x != t.root
    ensures var t' := Pruned(t, x);
            && t'.root == t.root && t'.depth == t.depth
            && t'.nodes.Keys == t.nodes.Keys - {x}
            && t'.kids.Keys == t.kids.Keys
            && (forall y {:trigger t'.nodes[y]} | y in t'.nodes ::
                  t'.nodes[y].slice == t.nodes[y].slice && t'.nodes[y].parent == t.nodes[y].parent)
            && (forall h {:trigger t'.kids[h]} | h in t.kids ::
                  |t'.kids[h]| == |t.kids[h]| - (if h == ParentOf(t, x) then 1 else 0))
  {
  }

  // ----- the links

  /** The block the exit leaves at y. */
  ghost function Parting(m: Mem, t: Tree, x: Ptr, pending: Ptr, y: Ptr): Tcb
    requires Valid(t) && IsLeaf(t, x) && x != t.root && y in m
  {
    var c, alone := m[y], After(t, x) == x;
    var succ := if alone then NULL else After(t, x);
    if y == x then c.(state := Dead, next := NULL, prev := pending)
    else if y == ParentOf(t, x) then PastMember(c, x, succ)
    else c.(next := if !alone && y == Before(t, x) then After(t, x) else c.next,
            prev := if !alone && y == After(t, x) then Before(t, x) else c.prev)
  }

  /** What unlinking does, node by node. */
  lemma UnlinkCloses(m: Mem, t: Tree, x: Ptr)
    requires Valid(t) && x in t.nodes && x != t.root && x in m
    requires m[x].next == After(t, x) && m[x].prev == Before(t, x)
    requires After(t, x) in m && Before(t, x) in m
    ensures var (m', succ) := Unlink(m, x);
            && m'.Keys == m.Keys
            && succ == (if After(t, x) == x then NULL else After(t, x))
            && forall y | y in m :: m'[y] ==
                 if y == x then m[y].(next := NULL, prev := NULL)
                 else m[y].(next := if y == Before(t, x) then After(t, x) else m[y].next,
                            prev := if y == After(t, x) then Before(t, x) else m[y].prev)
  {
    AloneBothWays(t, x);
    hide After, Before;
  }

  lemma ExitLinks(k: State, t: Tree)
    requires Represents(k.mem, t) && IsLeaf(t, k.current) && k.current != t.root && k.root == t.root
    ensures ExitTask(k).mem.Keys == k.mem.Keys
    ensures forall y | y in k.mem :: ExitTask(k).mem[y] == Parting(k.mem, t, k.current, k.pending, y)
    ensures ExitTask(k).ringHead ==
              if ParentOf(t, k.current) == t.root
              then (if After(t, k.current) == k.current then NULL else After(t, k.current))
              else k.ringHead
  {
    hide Unlink, After, Before;
    var m, x := k.mem, k.current;
    var g := ParentOf(t, x);
    assert Holds(m, t, x) && Holds(m, t, g) && Holds(m, t, t.root) && NodeOk(t, x);
    assert Holds(m, t, After(t, x)) && Holds(m, t, Before(t, x));
    UnlinkCloses(SetState(m, x, Dead), t, x);
    NotOwnParent(t, x);
    NotOwnParent(t, After(t, x));
    NotOwnParent(t, Before(t, x));
    AloneBothWays(t, x);
  }

  lemma NotOwnParent(t: Tree, x: Ptr)
    requires Valid(t) && x in t.nodes && x != t.root
    ensures ParentOf(t, x) != x
  {
  }

  lemma AloneBothWays(t: Tree, x: Ptr)
    requires Valid(t) && x in t.nodes && x != t.root
    ensures After(t, x) == x <==> Before(t, x) == x
    ensures After(t, x) == x <==> |t.kids[ParentOf(t, x)]| == 1
  {
    var g, i := ParentOf(t, x), t.nodes[x].pos;
    assert KidOk(t, g, Succ(i, |t.kids[g]|)) && KidOk(t, g, Pred(i, |t.kids[g]|));
  }

  lemma PartNeighbours(m: Mem, m': Mem, t: Tree, x: Ptr, pending: Ptr, y: Ptr)
    requires Represents(m, t) && IsLeaf(t, x) && x != t.root && y in t.nodes && y != x
    requires y in m ==> y in m' && m'[y] == Parting(m, t, x, pending, y)
    ensures Valid(Pruned(t, x)) && y in Pruned(t, x).nodes && y in m'
    ensures if y == t.root then m'[y].next == NULL
            else m'[y].next == After(Pruned(t, x), y) && m'[y].prev == Before(Pruned(t, x), y)
  {
    PrunedValid(t, x);
    assert Holds(m, t, y) && NodeOk(t, x) && NodeOk(t, y);
    if y != t.root {
      PrunedNeighbours(t, x, y);
      NotOwnParent(t, y);
      AloneBothWays(t, x);
      if ParentOf(t, y) == ParentOf(t, x) {
        Reciprocal(t, x, y);
      } else {
        assert After(t, y) != x && Before(t, y) != x && After(t, x) != y && Before(t, x) != y;
      }
      if y == ParentOf(t, x) {
        assert ParentOf(t, y) != ParentOf(t, x);
      }
    }
  }

  lemma Reciprocal(t: Tree, x: Ptr, y: Ptr)
    requires Valid(t) && x in t.nodes && y in t.nodes && x != t.root && y != t.root
    requires ParentOf(t, x) == ParentOf(t, y)
    ensures After(t, y) == x <==> y == Before(t, x)
    ensures Before(t, y) == x <==> y == After(t, x)
  {
    var g := ParentOf(t, x);
    var n, i, j := |t.kids[g]|, t.nodes[x].pos, t.nodes[y].pos;
    assert KidOk(t, g, Succ(i, n)) && KidOk(t, g, Pred(i, n)) && KidOk(t, g, Succ(j, n)) && KidOk(t, g, Pred(j, n));
  }

  lemma PartHeads(m: Mem, m': Mem, t: Tree, x: Ptr, pending: Ptr, y: Ptr)
    requires Represents(m, t) && IsLeaf(t, x) && x != t.root && y in t.kids && y in t.nodes
    requires y in m ==> y in m' && m'[y] == Parting(m, t, x, pending, y)
    requires Valid(Pruned(t, x))
    ensures var t' := Pruned(t, x);
            && y in m'
            && (|t'.kids[y]| == 0 ==> m'[y].head == NULL && m'[y].cursor == NULL)
            && (|t'.kids[y]| > 0 ==> m'[y].head == t'.kids[y][0] && IsKid(t', y, m'[y].cursor))
  {
    assert Holds(m, t, y);
    AloneBothWays(t, x);
    var g, at := ParentOf(t, x), t.nodes[x].pos;
    if y == g {
      assert KidOk(t, g, 0) && KidOk(t, g, at) && NodeOk(t, m[g].cursor);
      if |t.kids[g]| > 1 {
        RemovedAt(t.kids[g], at, 0);
      }
    }
  }

  lemma PartHolds(m: Mem, m': Mem, t: Tree, x: Ptr, pending: Ptr, y: Ptr)
    requires Represents(m, t) && IsLeaf(t, x) && x != t.root && y in t.nodes && y != x
    requires y in m ==> y in m' && m'[y] == Parting(m, t, x, pending, y)
    requires Valid(Pruned(t, x))
    ensures y in Pruned(t, x).nodes && Holds(m', Pruned(t, x), y)
  {
    hide Pruned, After, Before;
    PrunedNodes(t, x);
    PartNeighbours(m, m', t, x, pending, y);
    assert Holds(m, t, y);
    if y in t.kids {
      PartHeads(m, m', t, x, pending, y);
    } else {
      LeafIsNoParent(t, x, y);
    }
  }

  lemma LeafIsNoParent(t: Tree, x: Ptr, y: Ptr)
    requires Valid(t) && x in t.nodes && x != t.root && y !in t.kids
    ensures ParentOf(t, x) != y
  {
  }

  lemma ExitRepresents(k: State, t: Tree)
    requires Represents(k.mem, t) && IsLeaf(t, k.current) && k.current != t.root && k.root == t.root
    ensures Represents(ExitTask(k).mem, Pruned(t, k.current))
  {
    hide ExitTask, Pruned;
    var m', t' := ExitTask(k).mem, Pruned(t, k.current);
    ExitLinks(k, t);
    PrunedValid(t, k.current);
    PrunedNodes(t, k.current);
    forall y | y in t'.nodes ensures Holds(m', t', y) {
      PartHolds(k.mem, m', t, k.current, k.pending, y);
    }
  }
}
