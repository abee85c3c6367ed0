/**
  Spawning keeps the tree a tree: the new ring is the old one with the newcomer right
  behind the cursor.
 */
module Growth {
  import opened RoundRobin
  import opened Tree
  import opened Memory
  import opened Dispatch
  import opened Rings
  import opened Lifecycle

  /** Where the newcomer goes: behind the cursor, or first. */
  ghost function Slot(t: Tree, g: Ptr, cursor: Ptr): nat
    requires Valid(t) && g in t.kids
  {
    if IsKid(t, g, cursor) then t.nodes[cursor].pos + 1 else 0
  }

  ghost function Inserted(ring: seq<Ptr>, at: nat, node: Ptr): seq<Ptr>
    requires at <= |ring|
  {
    ring[..at] + [node] + ring[at..]
  }

  ghost function Shifted(n: Info, g: Ptr, at: nat): Info {
    if n.parent == g && at <= n.pos then n.(pos := n.pos + 1) else n
  }

  ghost function Grown(t: Tree, g: Ptr, at: nat, node: Ptr, slice: nat, group: bool): Tree
    requires Valid(t) && g in t.kids && g in t.nodes && at <= |t.kids[g]|
  {
    var kids := t.kids[g := Inserted(t.kids[g], at, node)];
    t.(nodes := (map x | x in t.nodes :: Shifted(t.nodes[x], g, at))
                [node := Info(g, at, t.nodes[g].level + 1, slice)],
       kids := if group then kids[node := []] else kids,
       depth := t.depth + 1)
  }

  lemma InsertedAt(ring: seq<Ptr>, at: nat, node: Ptr, i: nat)
    requires at <= |ring| && i <= |ring|
    ensures |Inserted(ring, at, node)| == |ring| + 1
    ensures Inserted(ring, at, node)[i] == if i < at then ring[i] else if i == at then node else ring[i - 1]
  {
  }

  lemma GrownNode(t: Tree, g: Ptr, at: nat, node: Ptr, slice: nat, group: bool, x: Ptr)
    requires Valid(t) && g in t.kids && g in t.nodes && at <= |t.kids[g]|
    requires node != NULL && node !in t.nodes && slice >= 1
    requires x in Grown(t, g, at, node, slice, group).nodes
    ensures NodeOk(Grown(t, g, at, node, slice, group), x)
  {
    assert NodeOk(t, g);
    if x != node {
      assert NodeOk(t, x);
      if t.nodes[x].parent == g && x != t.root {
        InsertedAt(t.kids[g], at, node, t.nodes[x].pos);
        InsertedAt(t.kids[g], at, node, t.nodes[x].pos + 1);
      }
    } else {
      InsertedAt(t.kids[g], at, node, at);
    }
  }

  lemma GrownKid(t: Tree, g: Ptr, at: nat, node: Ptr, slice: nat, group: bool, h: Ptr, i: nat)
    requires Valid(t) && g in t.kids && g in t.nodes && at <= |t.kids[g]|
    requires node != NULL && node !in t.nodes
    requires h in Grown(t, g, at, node, slice, group).kids && i < |Grown(t, g, at, node, slice, group).kids[h]|
    ensures KidOk(Grown(t, g, at, node, slice, group), h, i)
  {
    if h == g {
      InsertedAt(t.kids[g], at, node, i);
      if i < at {
        assert KidOk(t, g, i);
      } else if i > at {
        assert KidOk(t, g, i - 1);
      }
    } else {
      assert KidOk(t, h, i);
    }
  }

  lemma GrownValid(t: Tree, g: Ptr, at: nat, node: Ptr, slice: nat, group: bool)
    requires Valid(t) && g in t.kids && g in t.nodes && at <= |t.kids[g]|
    requires node != NULL && node !in t.nodes && slice >= 1
    ensures Valid(Grown(t, g, at, node, slice, group))
  {
    var t' := Grown(t, g, at, node, slice, group);
    forall x | x in t'.nodes ensures NodeOk(t', x) {
      GrownNode(t, g, at, node, slice, group, x);
    }
    forall h, i | h in t'.kids && 0 <= i < |t'.kids[h]| ensures KidOk(t', h, i) {
      GrownKid(t, g, at, node, slice, group, h, i);
    }
  }

  // ----- the links

  /** Everything a spawn is given, as it stands before the newcomer is linked. */
  ghost predicate Spawning(m: Mem, t: Tree, g: Ptr, node: Ptr, slice: nat, group: bool) {
    && Represents(Without(m, node), t)
    && g in t.kids && g in t.nodes
    && node != NULL && node !in t.nodes && node in m && slice >= 1
    && m[node].next == NULL
    && m[node].parent == g && m[node].slice == m[node].remaining == slice
    && m[node].state.Ready? && (m[node].kind.Group? <==> group)
    && m[node].head == NULL && m[node].cursor == NULL
  }

  ghost function NewTree(m: Mem, t: Tree, g: Ptr, node: Ptr, slice: nat, group: bool): Tree
    requires Spawning(m, t, g, node, slice, group)
  {
    assert NodeOk(t, g);
    SlotFits(t, g, Cursor(m, g));
    Grown(t, g, Slot(t, g, Cursor(m, g)), node, slice, group)
  }

  lemma SlotFits(t: Tree, g: Ptr, cursor: Ptr)
    requires Valid(t) && g in t.kids && g in t.nodes
    ensures Slot(t, g, cursor) <= |t.kids[g]|
    ensures |t.kids[g]| > 0 && IsKid(t, g, cursor) ==> Slot(t, g, cursor) > 0
  {
    if IsKid(t, g, cursor) {
      assert NodeOk(t, cursor);
    }
  }

  /** The ring neighbours after the insertion, in terms of the old ones. */
  lemma GrownNeighbours(m: Mem, t: Tree, g: Ptr, node: Ptr, slice: nat, group: bool, x: Ptr)
    requires Spawning(m, t, g, node, slice, group) && |t.kids[g]| > 0
    requires IsKid(t, g, Cursor(m, g)) && Cursor(m, g) != t.root
    requires x in t.nodes && x != t.root
    ensures Valid(NewTree(m, t, g, node, slice, group))
    ensures After(NewTree(m, t, g, node, slice, group), x) == if x == Cursor(m, g) then node else After(t, x)
    ensures Before(NewTree(m, t, g, node, slice, group), x)
            == if x == After(t, Cursor(m, g)) then node else Before(t, x)
  {
    hide Grown, After, Before, Represents;
    var cur := Cursor(m, g);
    assert Valid(t) && node != NULL && node !in t.nodes by { SpawningValid(m, t, g, node, slice, group); }
    SlotFits(t, g, cur);
    GrownValid(t, g, Slot(t, g, cur), node, slice, group);
    GrownAfter(t, g, cur, node, slice, group, x);
    GrownBefore(t, g, cur, node, slice, group, x);
  }

  lemma SpawningValid(m: Mem, t: Tree, g: Ptr, node: Ptr, slice: nat, group: bool)
    requires Spawning(m, t, g, node, slice, group)
    ensures Valid(t) && node != NULL && node !in t.nodes
  {
  }

  /** The neighbours on the ring alone. */
  lemma InsertedNeighbours(ring: seq<Ptr>, at: nat, node: Ptr, i: nat)
    requires 1 <= at <= |ring| && i < |ring|
    ensures |Inserted(ring, at, node)| == |ring| + 1
    ensures var grown, n, i' := Inserted(ring, at, node), |ring|, if at <= i then i + 1 else i;
            && grown[Succ(i', n + 1)] == (if i == at - 1 then node else ring[Succ(i, n)])
            && grown[Pred(i', n + 1)] == (if i == Succ(at - 1, n) then node else ring[Pred(i, n)])
  {
    var n, i' := |ring|, if at <= i then i + 1 else i;
    InsertedAt(ring, at, node, Succ(i', n + 1));
    InsertedAt(ring, at, node, Pred(i', n + 1));
  }

  lemma AtPos(t: Tree, g: Ptr, x: Ptr, i: nat)
    requires Valid(t) && g in t.kids && i < |t.kids[g]| && x in t.nodes && x != t.root && ParentOf(t, x) == g
    ensures x == t.kids[g][i] <==> t.nodes[x].pos == i
  {
    assert KidOk(t, g, i);
  }

  lemma GrownAfter(t: Tree, g: Ptr, cur: Ptr, node: Ptr, slice: nat, group: bool, x: Ptr)
    requires Valid(t) && g in t.kids && g in t.nodes && IsKid(t, g, cur) && cur != t.root
    requires x in t.nodes && x != t.root && node !in t.nodes && Slot(t, g, cur) <= |t.kids[g]|
    requires Valid(Grown(t, g, Slot(t, g, cur), node, slice, group))
    ensures x in Grown(t, g, Slot(t, g, cur), node, slice, group).nodes
    ensures After(Grown(t, g, Slot(t, g, cur), node, slice, group), x) == if x == cur then node else After(t, x)
  {
    hide Inserted;
    var at, ring := Slot(t, g, cur), t.kids[g];
    assert NodeOk(t, x) && NodeOk(t, cur);
    if ParentOf(t, x) == g {
      AtPos(t, g, x, at - 1);
      InsertedNeighbours(ring, at, node, t.nodes[x].pos);
    }
  }

  lemma GrownBefore(t: Tree, g: Ptr, cur: Ptr, node: Ptr, slice: nat, group: bool, x: Ptr)
    requires Valid(t) && g in t.kids && g in t.nodes && IsKid(t, g, cur) && cur != t.root
    requires x in t.nodes && x != t.root && node !in t.nodes && Slot(t, g, cur) <= |t.kids[g]|
    requires Valid(Grown(t, g, Slot(t, g, cur), node, slice, group))
    ensures x in Grown(t, g, Slot(t, g, cur), node, slice, group).nodes
    ensures Before(Grown(t, g, Slot(t, g, cur), node, slice, group), x) == if x == After(t, cur) then node else Before(t, x)
  {
    hide Inserted;
    var at, ring := Slot(t, g, cur), t.kids[g];
    assert NodeOk(t, x) && NodeOk(t, cur);
    if ParentOf(t, x) == g {
      AtPos(t, g, x, Succ(at - 1, |ring|));
      InsertedNeighbours(ring, at, node, t.nodes[x].pos);
    }
  }

  lemma NewcomerNeighbours(m: Mem, t: Tree, g: Ptr, node: Ptr, slice: nat, group: bool)
    requires Spawning(m, t, g, node, slice, group) && |t.kids[g]| > 0
    requires IsKid(t, g, Cursor(m, g)) && Cursor(m, g) != t.root
    ensures Valid(NewTree(m, t, g, node, slice, group))
    ensures After(NewTree(m, t, g, node, slice, group), node) == After(t, Cursor(m, g))
    ensures Before(NewTree(m, t, g, node, slice, group), node) == Cursor(m, g)
  {
    var t', cur, ring := NewTree(m, t, g, node, slice, group), Cursor(m, g), t.kids[g];
    var at := Slot(t, g, cur);
    SlotFits(t, g, cur);
    GrownValid(t, g, at, node, slice, group);
    assert NodeOk(t, cur);
    InsertedAt(ring, at, node, Succ(at, |ring| + 1));
    InsertedAt(ring, at, node, Pred(at, |ring| + 1));
  }

  lemma FirstKidNeighbours(m: Mem, t: Tree, g: Ptr, node: Ptr, slice: nat, group: bool, x: Ptr)
    requires Spawning(m, t, g, node, slice, group) && |t.kids[g]| == 0
    ensures Valid(NewTree(m, t, g, node, slice, group))
    ensures x in t.nodes && x != t.root ==>
              After(NewTree(m, t, g, node, slice, group), x) == After(t, x)
              && Before(NewTree(m, t, g, node, slice, group), x) == Before(t, x)
    ensures After(NewTree(m, t, g, node, slice, group), node) == node
    ensures Before(NewTree(m, t, g, node, slice, group), node) == node
  {
    SlotFits(t, g, Cursor(m, g));
    GrownValid(t, g, Slot(t, g, Cursor(m, g)), node, slice, group);
    if x in t.nodes && x != t.root {
      assert NodeOk(t, x);
    }
  }

  // ----- the insertion itself

  /** The block insert_child leaves at x. */
  ghost function Linking(m: Mem, t: Tree, g: Ptr, node: Ptr, x: Ptr): Tcb
    requires x in m && Valid(t) && g in t.kids && node != NULL
  {
    var cur := Cursor(m, g);
    var c := m[x];
    if |t.kids[g]| == 0 || !IsKid(t, g, cur) || cur == t.root then
      if x == node then c.(next := node, prev := node)
      else if x == g then c.(head := node, cursor := node)
      else c
    else if x == node then c.(next := After(t, cur), prev := cur)
    else c.(next := if x == cur then node else c.next, prev := if x == After(t, cur) then node else c.prev)
  }

  lemma LinkFirst(k: State, t: Tree, g: Ptr, node: Ptr)
    requires Valid(t) && g in t.kids && |t.kids[g]| == 0 && node != NULL
    requires g in k.mem && node in k.mem && g != node && k.mem[g].head == NULL && k.mem[g].cursor == NULL
    requires NULL !in k.mem
    ensures var m' := InsertChild(k, g, node).mem;
            m'.Keys == k.mem.Keys && forall x | x in k.mem :: m'[x] == Linking(k.mem, t, g, node, x)
  {
    hide Valid;
    assert !Linked(k.mem, Anchor(k.mem, g));
  }

  lemma LinkBehind(k: State, t: Tree, g: Ptr, node: Ptr, cur: Ptr)
    requires Valid(t) && g in t.kids && |t.kids[g]| > 0 && node != NULL && IsKid(t, g, cur) && cur != t.root
    requires g in k.mem && node in k.mem && g != node && k.mem[g].head != NULL && k.mem[g].cursor == cur
    requires cur != node && cur != NULL && After(t, cur) in k.mem && After(t, cur) != node && After(t, cur) != NULL
    requires cur in k.mem && k.mem[cur].next == After(t, cur) && k.mem[cur].parent == g
    ensures var m' := InsertChild(k, g, node).mem;
            m'.Keys == k.mem.Keys && forall x | x in k.mem :: m'[x] == Linking(k.mem, t, g, node, x)
  {
    hide Valid;
    assert Anchor(k.mem, g) == cur && Linked(k.mem, cur);
  }

  lemma InsertLinks(k: State, t: Tree, g: Ptr, node: Ptr, slice: nat, group: bool)
    requires Spawning(k.mem, t, g, node, slice, group)
    ensures var m' := InsertChild(k, g, node).mem;
            m'.Keys == k.mem.Keys && forall x | x in k.mem :: m'[x] == Linking(k.mem, t, g, node, x)
  {
    hide InsertChild, Linking;
    var m, cur := k.mem, Cursor(k.mem, g);
    assert Holds(Without(m, node), t, g);
    assert g in m && g != node && m[g] == Without(m, node)[g];
    if |t.kids[g]| > 0 {
      KidIsNotRoot(t, g, cur);
      NextInMemory(Without(m, node), t, cur);
      assert Holds(Without(m, node), t, t.kids[g][0]) && KidOk(t, g, 0);
      LinkBehind(k, t, g, node, cur);
    } else {
      LinkFirst(k, t, g, node);
    }
  }

  lemma InsertNeighbours(m: Mem, m': Mem, t: Tree, g: Ptr, node: Ptr, slice: nat, group: bool, x: Ptr)
    requires Spawning(m, t, g, node, slice, group)
    requires x == node || x in t.nodes
    requires x in m ==> x in m' && m'[x] == Linking(m, t, g, node, x)
    requires Valid(NewTree(m, t, g, node, slice, group))
    ensures var t' := NewTree(m, t, g, node, slice, group);
            x in m' && x in t'.nodes && (if x == t'.root then m'[x].next == NULL
                        else m'[x].next == After(t', x) && m'[x].prev == Before(t', x))
  {
    hide Grown;
    var cur, t' := Cursor(m, g), NewTree(m, t, g, node, slice, group);
    assert NodeOk(t, t.root);
    InsertedNodes(m, t, g, node, slice, group);
    assert Holds(Without(m, node), t, g);
    assert g in m && m[g] == Without(m, node)[g];
    if x != node {
      assert Holds(Without(m, node), t, x) && x in m && m[x] == Without(m, node)[x];
    }
    if |t.kids[g]| == 0 {
      FirstKidNeighbours(m, t, g, node, slice, group, x);
    } else {
      KidIsNotRoot(t, g, cur);
      if x == node {
        NewcomerNeighbours(m, t, g, node, slice, group);
      } else if x != t.root {
        GrownNeighbours(m, t, g, node, slice, group, x);
      } else {
        assert cur != x && After(t, cur) != x;
      }
    }
  }

  lemma InsertedNodes(m: Mem, t: Tree, g: Ptr, node: Ptr, slice: nat, group: bool)
    requires Spawning(m, t, g, node, slice, group)
    ensures var t' := NewTree(m, t, g, node, slice, group);
            && t'.root == t.root
            && t'.nodes.Keys == t.nodes.Keys + {node}
            && t'.kids.Keys == t.kids.Keys + (if group then {node} else {})
            && t'.nodes[node].slice == slice && t'.nodes[node].parent == g
            && (forall x {:trigger t'.nodes[x]} | x in t.nodes ::
                  t'.nodes[x].slice == t.nodes[x].slice && t'.nodes[x].parent == t.nodes[x].parent
                  && t'.nodes[x].level == t.nodes[x].level)
  {
    SlotFits(t, g, Cursor(m, g));
  }

  lemma InsertHolds(m: Mem, m': Mem, t: Tree, g: Ptr, node: Ptr, slice: nat, group: bool, x: Ptr)
    requires Spawning(m, t, g, node, slice, group)
    requires x == node || x in t.nodes
    requires x in m ==> x in m' && m'[x] == Linking(m, t, g, node, x)
    requires Valid(NewTree(m, t, g, node, slice, group))
    ensures x in NewTree(m, t, g, node, slice, group).nodes
    ensures Holds(m', NewTree(m, t, g, node, slice, group), x)
  {
    hide Grown, NewTree, After, Before;
    InsertedNodes(m, t, g, node, slice, group);
    InsertNeighbours(m, m', t, g, node, slice, group, x);
    InsertHeads(m, m', t, g, node, slice, group, x);
    assert Holds(Without(m, node), t, g) && g in m && m[g] == Without(m, node)[g];
    if x != node {
      assert Holds(Without(m, node), t, x) && x in m && m[x] == Without(m, node)[x];
    }
  }

  /** Heads stay first, cursors stay among the children. */
  lemma InsertHeads(m: Mem, m': Mem, t: Tree, g: Ptr, node: Ptr, slice: nat, group: bool, x: Ptr)
    requires Spawning(m, t, g, node, slice, group)
    requires x == node || x in t.nodes
    requires x in m ==> x in m' && m'[x] == Linking(m, t, g, node, x)
    requires Valid(NewTree(m, t, g, node, slice, group))
    ensures var t' := NewTree(m, t, g, node, slice, group);
            x in t'.kids && x in m' ==>
              && (|t'.kids[x]| == 0 ==> m'[x].head == NULL && m'[x].cursor == NULL)
              && (|t'.kids[x]| > 0 ==> m'[x].head == t'.kids[x][0] && IsKid(t', x, m'[x].cursor))
  {
    var cur := Cursor(m, g);
    SlotFits(t, g, cur);
    assert Holds(Without(m, node), t, g) && NodeOk(t, g);
    assert g in m && m[g] == Without(m, node)[g];
    if x != node {
      assert Holds(Without(m, node), t, x) && x in m && m[x] == Without(m, node)[x];
    }
    if |t.kids[g]| > 0 {
      KidIsNotRoot(t, g, cur);
      InsertedAt(t.kids[g], Slot(t, g, cur), node, 0);
    }
  }

  lemma InsertRepresents(k: State, t: Tree, g: Ptr, node: Ptr, slice: nat, group: bool)
    requires Spawning(k.mem, t, g, node, slice, group) && NULL !in k.mem
    ensures Represents(InsertChild(k, g, node).mem, NewTree(k.mem, t, g, node, slice, group))
  {
    hide InsertChild;
    var m, m', t' := k.mem, InsertChild(k, g, node).mem, NewTree(k.mem, t, g, node, slice, group);
    InsertLinks(k, t, g, node, slice, group);
    SlotFits(t, g, Cursor(m, g));
    GrownValid(t, g, Slot(t, g, Cursor(m, g)), node, slice, group);
    forall x | x in t'.nodes ensures Holds(m', t', x) {
      InsertHolds(m, m', t, g, node, slice, group, x);
    }
  }
}
