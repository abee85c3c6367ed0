/**
  Ring surgery on its own: a ring is a cyclic sequence of nodes linked both ways, and
  insert_after and unlink are insertion into and removal from that sequence.
 */
module Circles {
  import opened Lists
  import opened RoundRobin
  import opened Tree
  import opened Memory
  import opened Dispatch
  import opened Lifecycle
  import opened Growth
  import opened Departure

  /** ring[i] links forward to the next of ring and backward to the one before, cyclically. */
  ghost predicate Circular(m: Mem, ring: seq<Ptr>) {
    && Distinct(ring)
    && NULL !in ring
    && forall i | 0 <= i < |ring| :: LinkedAt(m, ring, i)
  }

  ghost predicate LinkedAt(m: Mem, ring: seq<Ptr>, i: nat)
    requires i < |ring|
  {
    && ring[i] in m
    && m[ring[i]].next == ring[Succ(i, |ring|)]
    && m[ring[i]].prev == ring[Pred(i, |ring|)]
  }

  lemma Member(m: Mem, ring: seq<Ptr>, i: nat)
    requires Circular(m, ring) && i < |ring|
    ensures LinkedAt(m, ring, i) && ring[i] != NULL
  {
    assert ring[i] in ring;
  }

  lemma Apart(m: Mem, ring: seq<Ptr>, i: nat, j: nat)
    requires Circular(m, ring) && i < |ring| && j < |ring|
    ensures ring[i] == ring[j] <==> i == j
  {
  }

  lemma FromMembers(m: Mem, ring: seq<Ptr>)
    requires forall i | 0 <= i < |ring| :: LinkedAt(m, ring, i) && ring[i] != NULL
    requires Distinct(ring)
    ensures Circular(m, ring)
  {
  }

  lemma InsertAlone(m: Mem, anchor: Ptr, node: Ptr)
    requires node in m && anchor !in m && node != NULL
    ensures Circular(InsertAfter(m, anchor, node), [node])
  {
    assert LinkedAt(InsertAfter(m, anchor, node), [node], 0);
  }

  /** The block at y once node stands between anchor and anchor's old successor. */
  ghost function Wedged(m: Mem, anchor: Ptr, node: Ptr, y: Ptr): Tcb
    requires anchor in m && y in m
  {
    m[y].(next := if y == anchor then node else if y == node then m[anchor].next else m[y].next,
          prev := if y == m[anchor].next then node else if y == node then anchor else m[y].prev)
  }

  /** What insert_after leaves at each node. */
  lemma InsertLinked(m: Mem, anchor: Ptr, node: Ptr, y: Ptr)
    requires anchor in m && node in m && y in m && anchor != node
    requires m[anchor].next in m && m[anchor].next != node
    ensures var m' := InsertAfter(m, anchor, node);
            && m'.Keys == m.Keys
            && m'[y] == Wedged(m, anchor, node, y)
  {
  }

  ghost predicate Insertion(m: Mem, ring: seq<Ptr>, i: nat, node: Ptr) {
    Circular(m, ring) && i < |ring| && node in m && node !in ring && node != NULL
  }

  lemma InsertionNode(m: Mem, ring: seq<Ptr>, i: nat, node: Ptr)
    requires Insertion(m, ring, i, node)
    ensures node in m && node != NULL
  {
  }

  lemma InsertionOpens(m: Mem, ring: seq<Ptr>, i: nat, node: Ptr)
    requires Insertion(m, ring, i, node)
    ensures Circular(m, ring) && i < |ring|
    ensures ring[i] in m && ring[i] != node && m[ring[i]].next in m && m[ring[i]].next != node
    ensures m[ring[i]].next == ring[Succ(i, |ring|)]
    ensures |Inserted(ring, i + 1, node)| == |ring| + 1
  {
    Member(m, ring, i);
    Member(m, ring, Succ(i, |ring|));
  }

  /** The node comes directly behind its anchor; the rest of the ring is as it was. */
  lemma InsertBehind(m: Mem, ring: seq<Ptr>, i: nat, node: Ptr)
    requires Insertion(m, ring, i, node)
    ensures i < |ring| && Circular(InsertAfter(m, ring[i], node), Inserted(ring, i + 1, node))
  {
    hide Insertion, Inserted, InsertAfter, Circular, LinkedAt;
    InsertionOpens(m, ring, i, node);
    var m', grown := InsertAfter(m, ring[i], node), Inserted(ring, i + 1, node);
    forall j | 0 <= j < |grown| ensures LinkedAt(m', grown, j) && grown[j] != NULL {
      InsertedLink(m, ring, i, node, j);
    }
    InsertedDistinct(m, ring, i, node);
    FromMembers(m', grown);
  }

  lemma InsertedDistinct(m: Mem, ring: seq<Ptr>, i: nat, node: Ptr)
    requires Insertion(m, ring, i, node)
    ensures i < |ring| && Distinct(Inserted(ring, i + 1, node))
  {
    assert Distinct(ring);
  }

  lemma InsertedLink(m: Mem, ring: seq<Ptr>, i: nat, node: Ptr, j: nat)
    requires Insertion(m, ring, i, node) && j <= |ring|
    ensures i < |ring| && |Inserted(ring, i + 1, node)| == |ring| + 1
    ensures LinkedAt(InsertAfter(m, ring[i], node), Inserted(ring, i + 1, node), j)
    ensures Inserted(ring, i + 1, node)[j] != NULL
  {
    if j == i + 1 {
      NewcomerLink(m, ring, i, node);
    } else {
      OldLink(m, ring, i, node, if j < i + 1 then j else j - 1);
    }
  }

  lemma NewcomerLink(m: Mem, ring: seq<Ptr>, i: nat, node: Ptr)
    requires Insertion(m, ring, i, node)
    ensures i < |ring| && |Inserted(ring, i + 1, node)| == |ring| + 1
    ensures LinkedAt(InsertAfter(m, ring[i], node), Inserted(ring, i + 1, node), i + 1)
    ensures Inserted(ring, i + 1, node)[i + 1] == node != NULL
  {
    InsertionOpens(m, ring, i, node);
    assert node in m && node != NULL;
    hide Insertion, Inserted, InsertAfter, Circular;
    InsertLinked(m, ring[i], node, node);
    InsertedAt(ring, i + 1, node, i + 1);
    InsertedAt(ring, i + 1, node, Succ(i + 1, |ring| + 1));
    InsertedAt(ring, i + 1, node, i);
  }

  lemma OldLink(m: Mem, ring: seq<Ptr>, i: nat, node: Ptr, o: nat)
    requires Insertion(m, ring, i, node) && o < |ring|
    ensures var j := if i + 1 <= o then o + 1 else o;
            && i < |ring| && |Inserted(ring, i + 1, node)| == |ring| + 1
            && LinkedAt(InsertAfter(m, ring[i], node), Inserted(ring, i + 1, node), j)
            && Inserted(ring, i + 1, node)[j] == ring[o] != NULL
  {
    InsertionOpens(m, ring, i, node);
    Member(m, ring, o);
    Apart(m, ring, o, i);
    Apart(m, ring, o, Succ(i, |ring|));
    assert node in m && ring[o] in m && ring[o] != node;
    hide Insertion, Inserted, InsertAfter, Circular;
    InsertLinked(m, ring[i], node, ring[o]);
    InsertedNeighbours(ring, i + 1, node, o);
    InsertedAt(ring, i + 1, node, if i + 1 <= o then o + 1 else o);
  }

  /** The block at y once the ring has closed behind node. */
  ghost function Closing(m: Mem, node: Ptr, y: Ptr): Tcb
    requires node in m && y in m
  {
    if m[node].next == node then m[y]
    else m[y].(next := if y == m[node].prev then m[node].next else m[y].next,
               prev := if y == m[node].next then m[node].prev else m[y].prev)
  }

  /** What unlink leaves at each node. */
  lemma UnlinkLinked(m: Mem, node: Ptr, y: Ptr)
    requires node in m && y in m
    requires m[node].next != node ==> m[node].next in m && m[node].prev in m && m[node].prev != node
    ensures var (m', succ) := Unlink(m, node);
            && m'.Keys == m.Keys
            && succ == (if m[node].next == node then NULL else m[node].next)
            && m'[y] == if y == node then m[y].(next := NULL, prev := NULL) else Closing(m, node, y)
  {
  }

  ghost predicate Removal(m: Mem, ring: seq<Ptr>, i: nat) {
    Circular(m, ring) && i < |ring|
  }

  lemma RemovalOpens(m: Mem, ring: seq<Ptr>, i: nat)
    requires Removal(m, ring, i)
    ensures Circular(m, ring) && i < |ring| && ring[i] in m
    ensures m[ring[i]].next == ring[Succ(i, |ring|)] && m[ring[i]].prev == ring[Pred(i, |ring|)]
    ensures ring[Succ(i, |ring|)] in m && ring[Pred(i, |ring|)] in m
    ensures m[ring[i]].next == ring[i] <==> |ring| == 1
    ensures m[ring[i]].prev == ring[i] <==> |ring| == 1
    ensures |Removed(ring, i)| == |ring| - 1
  {
    Member(m, ring, i);
    Member(m, ring, Succ(i, |ring|));
    Member(m, ring, Pred(i, |ring|));
    Apart(m, ring, i, Succ(i, |ring|));
    Apart(m, ring, i, Pred(i, |ring|));
  }

  /** The node is out with null links, its successor is returned, and the ring has closed
      around the gap. */
  lemma UnlinkCloses(m: Mem, ring: seq<Ptr>, i: nat)
    requires Removal(m, ring, i)
    ensures i < |ring|
    ensures var (m', succ) := Unlink(m, ring[i]);
            && Circular(m', Removed(ring, i))
            && ring[i] in m' && m'[ring[i]].next == NULL && m'[ring[i]].prev == NULL
            && succ == if |ring| == 1 then NULL else ring[Succ(i, |ring|)]
  {
    hide Removal, Removed, Unlink, Circular, LinkedAt;
    RemovalOpens(m, ring, i);
    UnlinkLinked(m, ring[i], ring[i]);
    var m', rest := Unlink(m, ring[i]).0, Removed(ring, i);
    forall j | 0 <= j < |rest| ensures LinkedAt(m', rest, j) && rest[j] != NULL {
      RemovedLink(m, ring, i, if j < i then j else j + 1);
    }
    RemovedDistinct(m, ring, i);
    FromMembers(m', rest);
  }

  lemma RemovedDistinct(m: Mem, ring: seq<Ptr>, i: nat)
    requires Removal(m, ring, i)
    ensures i < |ring| && Distinct(Removed(ring, i))
  {
    assert Distinct(ring);
  }

  /** The neighbours on the ring alone. */
  lemma RemovedNeighbours(ring: seq<Ptr>, i: nat, o: nat)
    requires i < |ring| && o < |ring| && o != i
    ensures |Removed(ring, i)| == |ring| - 1
    ensures var rest, n, j := Removed(ring, i), |ring|, if o < i then o else o - 1;
            && rest[j] == ring[o]
            && rest[Succ(j, n - 1)] == (if o == Pred(i, n) then ring[Succ(i, n)] else ring[Succ(o, n)])
            && rest[Pred(j, n - 1)] == (if o == Succ(i, n) then ring[Pred(i, n)] else ring[Pred(o, n)])
  {
    var n, j := |ring|, if o < i then o else o - 1;
    RemovedAt(ring, i, j);
    RemovedAt(ring, i, Succ(j, n - 1));
    RemovedAt(ring, i, Pred(j, n - 1));
  }

  lemma RemovedLink(m: Mem, ring: seq<Ptr>, i: nat, o: nat)
    requires Removal(m, ring, i) && o < |ring| && o != i
    ensures var j := if o < i then o else o - 1;
            && |Removed(ring, i)| == |ring| - 1
            && LinkedAt(Unlink(m, ring[i]).0, Removed(ring, i), j) && Removed(ring, i)[j] != NULL
  {
    RemovalOpens(m, ring, i);
    Member(m, ring, o);
    Apart(m, ring, o, i);
    Apart(m, ring, o, Succ(i, |ring|));
    Apart(m, ring, o, Pred(i, |ring|));
    hide Removal, Removed, Unlink, Circular;
    UnlinkLinked(m, ring[i], ring[o]);
    RemovedNeighbours(ring, i, o);
  }

  /** Linking a node in and out again leaves the ring as it was. */
  lemma InsertThenUnlink(m: Mem, ring: seq<Ptr>, i: nat, node: Ptr)
    requires Insertion(m, ring, i, node)
    ensures i < |ring| && Circular(Unlink(InsertAfter(m, ring[i], node), node).0, ring)
    ensures Unlink(InsertAfter(m, ring[i], node), node).1 == ring[Succ(i, |ring|)]
  {
    hide Insertion, InsertAfter, Unlink, Circular;
    InsertionOpens(m, ring, i, node);
    InsertBehind(m, ring, i, node);
    NewcomerLink(m, ring, i, node);
    assert node in m && node != NULL by { InsertionNode(m, ring, i, node); }
    var grown := Inserted(ring, i + 1, node);
    assert Removed(grown, i + 1) == ring;
    InsertedAt(ring, i + 1, node, Succ(i + 1, |ring| + 1));
    InsertLinked(m, ring[i], node, node);
    assert Removal(InsertAfter(m, ring[i], node), grown, i + 1);
    UnlinkCloses(InsertAfter(m, ring[i], node), grown, i + 1);
  }

  // ----- for every ring at once

  ghost predicate JoinedBehind(m: Mem, m': Mem, anchor: Ptr, node: Ptr) {
    forall ring: seq<Ptr>, i: nat | Insertion(m, ring, i, node) && ring[i] == anchor ::
      Circular(m', Inserted(ring, i + 1, node))
  }

  ghost predicate LeftRing(m: Mem, m': Mem, node: Ptr, succ: Ptr) {
    forall ring: seq<Ptr>, i: nat | Removal(m, ring, i) && ring[i] == node ::
      && Circular(m', Removed(ring, i))
      && succ == if |ring| == 1 then NULL else ring[Succ(i, |ring|)]
  }

  lemma InsertIsExact(m: Mem, anchor: Ptr, node: Ptr)
    requires node in m && (anchor in m ==> m[anchor].next in m)
    ensures anchor !in m && node != NULL ==> Circular(InsertAfter(m, anchor, node), [node])
    ensures JoinedBehind(m, InsertAfter(m, anchor, node), anchor, node)
    ensures anchor in m && anchor != node && m[anchor].next != node ==>
              forall y | y in m :: y in InsertAfter(m, anchor, node) && InsertAfter(m, anchor, node)[y] == Wedged(m, anchor, node, y)
  {
    hide InsertAfter, Inserted, Circular, Wedged;
    if anchor !in m && node != NULL {
      InsertAlone(m, anchor, node);
    }
    forall ring: seq<Ptr>, i: nat | Insertion(m, ring, i, node) && ring[i] == anchor
      ensures Circular(InsertAfter(m, anchor, node), Inserted(ring, i + 1, node))
    {
      InsertBehind(m, ring, i, node);
    }
    if anchor in m && anchor != node && m[anchor].next != node {
      forall y | y in m ensures y in InsertAfter(m, anchor, node) && InsertAfter(m, anchor, node)[y] == Wedged(m, anchor, node, y) {
        InsertLinked(m, anchor, node, y);
      }
    }
  }

  lemma UnlinkIsExact(m: Mem, node: Ptr)
    requires node in m
    requires m[node].next != node ==> m[node].next in m && m[node].prev in m && m[node].prev != node
    ensures var (m', succ) := Unlink(m, node);
            && LeftRing(m, m', node, succ)
            && m'.Keys == m.Keys
            && m'[node].next == NULL && m'[node].prev == NULL
            && forall y | y in m && y != node :: m'[y] == Closing(m, node, y)
  {
    hide Unlink, Removed, Circular, Closing;
    var (m', succ) := Unlink(m, node);
    UnlinkLinked(m, node, node);
    forall ring: seq<Ptr>, i: nat | Removal(m, ring, i) && ring[i] == node
      ensures Circular(m', Removed(ring, i)) && succ == if |ring| == 1 then NULL else ring[Succ(i, |ring|)]
    {
      UnlinkCloses(m, ring, i);
    }
    forall y | y in m && y != node ensures m'[y] == Closing(m, node, y) {
      UnlinkLinked(m, node, y);
    }
  }
}
