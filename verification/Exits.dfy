/**
  What an exit and a deferred free leave behind, field by field.
 */
module Exits {
  import opened Lists
  import opened Tree
  import opened Memory
  import opened Dispatch
  import opened Lifecycle
  import opened Departure
  import opened Invariant
  import opened Books
  import opened Runs

  /** The leaver is dead, unlinked and heads the deferred-free list.  Its ring closes around it;
      a parent whose head or cursor it was has its successor there (null if it was alone) and any
      other parent keeps both; nobody is current, and no other field of no other block, and no
      other counter, is touched. */
  ghost predicate Gone(k: State, k': State, t: Tree, x: Ptr)
    requires Valid(t) && x in t.nodes && x != t.root
  {
    var alone, g := After(t, x) == x, ParentOf(t, x);
    var succ := if alone then NULL else After(t, x);
    && k'.mem.Keys == k.mem.Keys
    && (forall y {:trigger k'.mem[y]} | y in k.mem ::
          var c := k.mem[y];
          k'.mem[y] == if y == x then c.(state := Dead, next := NULL, prev := k.pending)
                       else c.(next := if !alone && y == Before(t, x) then After(t, x) else c.next,
                               prev := if !alone && y == After(t, x) then Before(t, x) else c.prev,
                               head := if y == g && c.head == x then succ else c.head,
                               cursor := if y == g && c.cursor == x then succ else c.cursor))
    && k.active > 0
    && k' == k.(mem := k'.mem, pending := x, current := NULL, active := k.active - 1,
                ringHead := if g == k.root then succ else k.ringHead)
  }

  lemma PartingIsGone(m: Mem, t: Tree, x: Ptr, pending: Ptr, y: Ptr)
    requires Represents(m, t) && IsLeaf(t, x) && x != t.root && y in m
    ensures var c, alone, g := m[y], After(t, x) == x, ParentOf(t, x);
            var succ := if alone then NULL else After(t, x);
            Parting(m, t, x, pending, y)
            == if y == x then c.(state := Dead, next := NULL, prev := pending)
               else c.(next := if !alone && y == Before(t, x) then After(t, x) else c.next,
                       prev := if !alone && y == After(t, x) then Before(t, x) else c.prev,
                       head := if y == g && c.head == x then succ else c.head,
                       cursor := if y == g && c.cursor == x then succ else c.cursor)
  {
    NotOwnParent(t, After(t, x));
    NotOwnParent(t, Before(t, x));
  }

  lemma ExitIsGone(k: State, t: Tree, dead: seq<Ptr>)
    requires WellFormed(k, t, dead) && k.current != NULL
    ensures k.current != t.root && k.current in t.nodes && Valid(t)
    ensures Gone(k, ExitTask(k), t, k.current)
  {
    hide ExitTask, Parting, Leaves, Graveyard, Identified;
    assert k.current != t.root && k.active > 0 by { ExitCounted(k, t, dead); }
    assert k.current in k.mem by { LeafInMemory(k, t, dead); }
    ExitLinks(k, t);
    ExitFields(k);
    assert t.root in k.mem by { RootThere(k, t, dead); }
    forall y | y in k.mem {
      PartingIsGone(k.mem, t, k.current, k.pending, y);
    }
  }

  lemma RootThere(k: State, t: Tree, dead: seq<Ptr>)
    requires WellFormed(k, t, dead)
    ensures t.root in k.mem
  {
    assert Holds(k.mem, t, t.root);
  }

  lemma ExitCounted(k: State, t: Tree, dead: seq<Ptr>)
    requires WellFormed(k, t, dead) && k.current != NULL
    ensures k.current != t.root && k.active > 0
  {
    ExitWellFormed(k, t, dead);
    assert k.current in Leaves(t);
  }

  lemma ExitFields(k: State)
    requires k.current in k.mem
    ensures var k' := ExitTask(k);
            && k' == k.(mem := k'.mem, pending := k.current, current := NULL, ringHead := k'.ringHead,
                        active := if k.active == 0 then 0 else k.active - 1)
  {
  }

  /** Exactly the finished threads that are not pinned are given back and counted; the pinned ones
      stay queued, no field but their list link is written, and nothing in the tree is touched. */
  ghost predicate Freed(k: State, k': State, t: Tree, dead: seq<Ptr>, pinned: set<Ptr>, dead': seq<Ptr>) {
    && (forall x | x in k.mem :: x in k'.mem <==> x !in dead || x in pinned)
    && (forall x {:trigger k'.mem[x]} | x in k'.mem :: x in k.mem && k'.mem[x] == k.mem[x].(prev := k'.mem[x].prev))
    && (forall x | x in t.nodes && x != t.root :: x in k'.mem && x in k.mem && k'.mem[x] == k.mem[x])
    && k'.reclaimed + |dead'| == k.reclaimed + |dead|
    && k' == k.(mem := k'.mem, pending := k'.pending, reclaimed := k'.reclaimed)
  }

  lemma ReclaimIsExact(k: State, t: Tree, dead: seq<Ptr>, pinned: set<Ptr>)
    requires WellFormed(k, t, dead)
    ensures Freed(k, ReclaimFinished(k, pinned), t, dead, pinned, Requeued(dead, pinned, []))
  {
    hide ReclaimFinished, Requeued;
    ReclaimWellFormed(k, t, dead, pinned);
    ReclaimFields(k, t, dead, pinned);
    var k', dead' := ReclaimFinished(k, pinned), Requeued(dead, pinned, []);
    forall x | x in k.mem ensures x in k'.mem <==> x !in dead || x in pinned {
      RequeuedMembers(dead, pinned, [], x);
      if x in dead && x in pinned {
        assert Buried(k'.mem, t, x);
      }
      if x !in dead {
        assert Holds(k'.mem, t, x);
      }
    }
    forall x | x in t.nodes && x != t.root ensures x in k'.mem && x in k.mem && k'.mem[x] == k.mem[x] {
      assert Holds(k.mem, t, x) && Holds(k'.mem, t, x);
      TreeKeepsPrev(k.mem, k'.mem, t, x);
    }
  }

  lemma TreeKeepsPrev(m: Mem, m': Mem, t: Tree, x: Ptr)
    requires Represents(m, t) && Represents(m', t) && x in t.nodes && x != t.root
    requires x in m ==> x in m' && m'[x] == m[x].(prev := m'[x].prev)
    ensures x in m && m'[x] == m[x]
  {
    assert Holds(m, t, x) && Holds(m', t, x);
  }

  lemma ReclaimFields(k: State, t: Tree, dead: seq<Ptr>, pinned: set<Ptr>)
    requires WellFormed(k, t, dead)
    ensures var k' := ReclaimFinished(k, pinned);
            && k' == k.(mem := k'.mem, pending := k'.pending, reclaimed := k'.reclaimed)
            && k'.reclaimed + |Requeued(dead, pinned, [])| == k.reclaimed + |dead|
  {
    hide Drain;
    assert Draining(k.(pending := NULL), t, k.pending, dead, []);
    forall i | 0 <= i < |dead| ensures dead[i] in k.mem {
      assert Buried(k.mem, t, dead[i]);
    }
    DistinctFits(dead, k.mem);
    DrainReclaims(k.(pending := NULL), t, k.pending, dead, [], pinned, |k.mem|);
  }
}
