/**
  Spawn, exit and deferred free keep the kernel invariant, and with it the books: every
  thread ever spawned is in the tree, on the deferred-free list, or freed.
 */
module Books {
  import opened Lists
  import opened Tree
  import opened Memory
  import opened Dispatch
  import opened Rings
  import opened Lifecycle
  import opened Growth
  import opened Departure
  import opened Invariant

  lemma NodesInMemory(m: Mem, t: Tree)
    requires Represents(m, t)
    ensures t.nodes.Keys <= m.Keys
  {
    forall x | x in t.nodes ensures x in m {
      assert Holds(m, t, x);
    }
  }

  // ----- spawn

  /** The allocator hands out an unused address. */
  ghost predicate Supplies(k: State, supply: Supply) {
    supply.Granted? ==> supply.slot != NULL && supply.slot !in k.mem
  }

  ghost function WithTcb(k: State, kind: Kind, g: Ptr, quantum: nat, slot: Ptr): State {
    k.(mem := k.mem[slot := NewTcb(k, kind, g, quantum)], nodes := k.nodes + 1, nextId := k.nextId + 1)
  }

  lemma SpawnSetsUp(k: State, t: Tree, dead: seq<Ptr>, kind: Kind, g: Ptr, quantum: nat, slot: Ptr)
    requires WellFormed(k, t, dead) && g in t.kids && slot != NULL && slot !in k.mem
    ensures Spawning(WithTcb(k, kind, g, quantum, slot).mem, t, g, slot, AtLeastOne(quantum), kind.Group?)
    ensures NULL !in WithTcb(k, kind, g, quantum, slot).mem
  {
    var m1 := WithTcb(k, kind, g, quantum, slot).mem;
    assert Without(m1, slot) == k.mem;
    NodesInMemory(k.mem, t);
  }

  ghost function SpawnTree(k: State, t: Tree, dead: seq<Ptr>, kind: Kind, g: Ptr, quantum: nat, slot: Ptr): Tree
    requires WellFormed(k, t, dead) && g in t.kids && slot != NULL && slot !in k.mem
  {
    SpawnSetsUp(k, t, dead, kind, g, quantum, slot);
    NewTree(WithTcb(k, kind, g, quantum, slot).mem, t, g, slot, AtLeastOne(quantum), kind.Group?)
  }

  /** Linking a newcomer moves nothing outside the tree, and no id. */
  lemma LinkingElsewhere(m: Mem, t: Tree, g: Ptr, node: Ptr, x: Ptr)
    requires Valid(t) && g in t.kids && g in t.nodes && node != NULL && x in m
    ensures Linking(m, t, g, node, x).id == m[x].id
    ensures x !in t.nodes && x != node ==> Linking(m, t, g, node, x) == m[x]
  {
  }

  lemma SpawnKeeps(k: State, t: Tree, dead: seq<Ptr>, kind: Kind, g: Ptr, quantum: nat, slot: Ptr)
    requires WellFormed(k, t, dead) && g in t.kids && slot != NULL && slot !in k.mem
    ensures var m, m' := k.mem, InsertChild(WithTcb(k, kind, g, quantum, slot), g, slot).mem;
            && m'.Keys == m.Keys + {slot} && m'[slot].id == k.nextId
            && forall x | x in m :: m'[x].id == m[x].id && (x !in t.nodes ==> m'[x] == m[x])
  {
    hide InsertChild, Linking;
    var k1 := WithTcb(k, kind, g, quantum, slot);
    var m' := InsertChild(k1, g, slot).mem;
    SpawnSetsUp(k, t, dead, kind, g, quantum, slot);
    InsertLinks(k1, t, g, slot, AtLeastOne(quantum), kind.Group?);
    forall x | x in k1.mem ensures m'[x].id == k1.mem[x].id && (x !in t.nodes && x != slot ==> m'[x] == k1.mem[x]) {
      LinkingElsewhere(k1.mem, t, g, slot, x);
    }
  }

  lemma SpawnGraveyard(k: State, t: Tree, dead: seq<Ptr>, kind: Kind, g: Ptr, quantum: nat, slot: Ptr)
    requires WellFormed(k, t, dead) && g in t.kids && slot != NULL && slot !in k.mem
    ensures var k' := InsertChild(WithTcb(k, kind, g, quantum, slot), g, slot);
            && k'.mem.Keys == k.mem.Keys + {slot}
            && Graveyard(k'.mem, SpawnTree(k, t, dead, kind, g, quantum, slot), k.pending, dead)
            && Identified(k'.mem, k.nextId + 1)
  {
    hide InsertChild, Linking, WithTcb, NewTree, Spawning, WellFormed, SpawnTree, Identified;
    var k1 := WithTcb(k, kind, g, quantum, slot);
    var m', t' := InsertChild(k1, g, slot).mem, SpawnTree(k, t, dead, kind, g, quantum, slot);
    SpawnKeeps(k, t, dead, kind, g, quantum, slot);
    assert t'.nodes.Keys == t.nodes.Keys + {slot} by { SpawnTreeNodes(k, t, dead, kind, g, quantum, slot); }
    DeadAreBuried(k, t, dead);
    forall x | x in dead ensures Buried(m', t', x) && x in k.mem && m'[x].prev == k.mem[x].prev {
      assert Buried(k.mem, t, x);
    }
    ChainKept(k.mem, m', k.pending, dead);
    SpawnIdentified(k.mem, m', slot, k.nextId);
  }

  lemma SpawnTreeNodes(k: State, t: Tree, dead: seq<Ptr>, kind: Kind, g: Ptr, quantum: nat, slot: Ptr)
    requires WellFormed(k, t, dead) && g in t.kids && slot != NULL && slot !in k.mem
    ensures var t' := SpawnTree(k, t, dead, kind, g, quantum, slot);
            && t'.nodes.Keys == t.nodes.Keys + {slot}
            && t'.kids.Keys == t.kids.Keys + (if kind.Group? then {slot} else {})
  {
    hide NewTree, Spawning, WellFormed;
    SpawnSetsUp(k, t, dead, kind, g, quantum, slot);
    InsertedNodes(WithTcb(k, kind, g, quantum, slot).mem, t, g, slot, AtLeastOne(quantum), kind.Group?);
  }

  lemma DeadAreBuried(k: State, t: Tree, dead: seq<Ptr>)
    requires WellFormed(k, t, dead)
    ensures Chain(k.mem, k.pending, dead) && Distinct(dead) && Identified(k.mem, k.nextId)
    ensures forall x {:trigger Buried(k.mem, t, x)} | x in dead :: Buried(k.mem, t, x)
  {
  }

  /** A fresh id stays unique. */
  lemma SpawnIdentified(m: Mem, m': Mem, slot: Ptr, nextId: nat)
    requires Identified(m, nextId) && m'.Keys == m.Keys + {slot} && slot !in m && m'[slot].id == nextId
    requires forall x | x in m :: m'[x].id == m[x].id
    ensures Identified(m', nextId + 1)
  {
  }

  lemma SpawnHead(k: State, t: Tree, dead: seq<Ptr>, kind: Kind, g: Ptr, quantum: nat, slot: Ptr)
    requires WellFormed(k, t, dead) && g in t.kids && slot != NULL && slot !in k.mem
    ensures var t' := SpawnTree(k, t, dead, kind, g, quantum, slot);
            Valid(t') && HeadOfLevelOne(t', if g == t.root then slot else k.ringHead)
  {
    var k1, t' := WithTcb(k, kind, g, quantum, slot), SpawnTree(k, t, dead, kind, g, quantum, slot);
    SpawnSetsUp(k, t, dead, kind, g, quantum, slot);
    SlotFits(t, g, Cursor(k1.mem, g));
    GrownValid(t, g, Slot(t, g, Cursor(k1.mem, g)), slot, AtLeastOne(quantum), kind.Group?);
    if g == t.root {
      InsertedAt(t.kids[g], Slot(t, g, Cursor(k1.mem, g)), slot, 0);
    }
  }

  lemma SpawnLeaves(k: State, t: Tree, dead: seq<Ptr>, kind: Kind, g: Ptr, quantum: nat, slot: Ptr)
    requires WellFormed(k, t, dead) && g in t.kids && slot != NULL && slot !in k.mem
    ensures |Leaves(SpawnTree(k, t, dead, kind, g, quantum, slot))| == |Leaves(t)| + (if kind.Leaf? then 1 else 0)
  {
    hide WellFormed, SpawnTree;
    SpawnTreeNodes(k, t, dead, kind, g, quantum, slot);
    SlotIsNew(k, t, dead, slot);
    GroupsAreNodes(k, t, dead);
    assert Leaves(SpawnTree(k, t, dead, kind, g, quantum, slot)) == Leaves(t) + (if kind.Leaf? then {slot} else {});
  }

  lemma GroupsAreNodes(k: State, t: Tree, dead: seq<Ptr>)
    requires WellFormed(k, t, dead)
    ensures t.kids.Keys <= t.nodes.Keys
  {
  }

  lemma SpawnWellFormed(k: State, t: Tree, dead: seq<Ptr>, kind: Kind, g: Ptr, quantum: nat, slot: Ptr)
    requires WellFormed(k, t, dead) && g in t.kids && slot != NULL && slot !in k.mem
    ensures var born := if kind.Leaf? then 1 else 0;
            var k' := InsertChild(WithTcb(k, kind, g, quantum, slot), g, slot)
                      .(total := k.total + born, active := k.active + born);
            WellFormed(k', SpawnTree(k, t, dead, kind, g, quantum, slot), dead)
  {
    hide NewTree, Graveyard, Identified, Leaves, HeadOfLevelOne, Represents;
    var k1, t' := WithTcb(k, kind, g, quantum, slot), SpawnTree(k, t, dead, kind, g, quantum, slot);
    SpawnSetsUp(k, t, dead, kind, g, quantum, slot);
    InsertRepresents(k1, t, g, slot, AtLeastOne(quantum), kind.Group?);
    InsertedNodes(k1.mem, t, g, slot, AtLeastOne(quantum), kind.Group?);
    SpawnGraveyard(k, t, dead, kind, g, quantum, slot);
    SpawnHead(k, t, dead, kind, g, quantum, slot);
    SpawnLeaves(k, t, dead, kind, g, quantum, slot);
    assert t'.depth == t.depth + 1 by { NewTreeDepth(k1.mem, t, g, slot, AtLeastOne(quantum), kind.Group?); }
    if k.current != NULL {
      SlotIsNew(k, t, dead, slot);
    }
  }

  lemma SlotIsNew(k: State, t: Tree, dead: seq<Ptr>, slot: Ptr)
    requires WellFormed(k, t, dead) && slot !in k.mem
    ensures slot !in t.nodes
  {
    NodesInMemory(k.mem, t);
  }

  lemma NewTreeDepth(m: Mem, t: Tree, g: Ptr, node: Ptr, slice: nat, group: bool)
    requires Spawning(m, t, g, node, slice, group)
    ensures NewTree(m, t, g, node, slice, group).depth == t.depth + 1
  {
    SlotFits(t, g, Cursor(m, g));
  }

  // ----- exit

  lemma PartingElsewhere(m: Mem, t: Tree, x: Ptr, pending: Ptr, y: Ptr)
    requires Valid(t) && IsLeaf(t, x) && x != t.root && y in m
    ensures Parting(m, t, x, pending, y).id == m[y].id
    ensures y !in t.nodes ==> Parting(m, t, x, pending, y) == m[y]
  {
  }

  lemma ExitGraveyard(k: State, t: Tree, dead: seq<Ptr>)
    requires WellFormed(k, t, dead) && k.current != NULL && k.current != t.root
    ensures ExitTask(k).mem.Keys == k.mem.Keys
    ensures Graveyard(ExitTask(k).mem, Pruned(t, k.current), k.current, [k.current] + dead)
    ensures Identified(ExitTask(k).mem, k.nextId)
  {
    hide ExitTask, Parting, Pruned;
    var x, m' := k.current, ExitTask(k).mem;
    ExitLinks(k, t);
    PrunedNodes(t, x);
    assert Holds(k.mem, t, x);
    forall y | y in m' ensures m'[y].id == k.mem[y].id {
      PartingElsewhere(k.mem, t, x, k.pending, y);
    }
    forall y | y in dead ensures Buried(m', Pruned(t, x), y) && y in k.mem && m'[y].prev == k.mem[y].prev && y != x {
      assert Buried(k.mem, t, y);
      PartingElsewhere(k.mem, t, x, k.pending, y);
    }
    ChainKept(k.mem, m', k.pending, dead);
    assert m'[x] == Parting(k.mem, t, x, k.pending, x);
    PartingSelf(k.mem, t, x, k.pending);
    assert ([x] + dead)[1..] == dead;
  }

  lemma PartingSelf(m: Mem, t: Tree, x: Ptr, pending: Ptr)
    requires Represents(m, t) && IsLeaf(t, x) && x != t.root && x in m
    ensures var c := Parting(m, t, x, pending, x);
            c.state.Dead? && c.next == NULL && c.prev == pending && c.kind.Leaf?
  {
    assert Holds(m, t, x);
  }

  lemma ExitHead(k: State, t: Tree, dead: seq<Ptr>)
    requires WellFormed(k, t, dead) && k.current != NULL && k.current != t.root
    ensures Valid(Pruned(t, k.current)) && HeadOfLevelOne(Pruned(t, k.current), ExitTask(k).ringHead)
  {
    hide ExitTask;
    var x, t' := k.current, Pruned(t, k.current);
    ExitLinks(k, t);
    PrunedValid(t, x);
    AloneBothWays(t, x);
    if t.kids[t.root] != [] && ParentOf(t, x) != t.root {
      assert k.ringHead != x;
    }
  }

  lemma ExitLeaves(t: Tree, x: Ptr)
    requires Valid(t) && IsLeaf(t, x) && x != t.root
    ensures |Leaves(Pruned(t, x))| == |Leaves(t)| - 1
  {
    PrunedNodes(t, x);
    assert Leaves(Pruned(t, x)) == Leaves(t) - {x};
  }

  lemma ExitWellFormed(k: State, t: Tree, dead: seq<Ptr>)
    requires WellFormed(k, t, dead) && k.current != NULL
    ensures k.current != t.root
    ensures WellFormed(ExitTask(k), Pruned(t, k.current), [k.current] + dead)
  {
    hide Graveyard, Identified, Leaves, HeadOfLevelOne, Represents, Unlink;
    assert Valid(t) by { RepresentsValid(k.mem, t); }
    assert k.current in k.mem by { LeafInMemory(k, t, dead); }
    ExitRepresents(k, t);
    ExitGraveyard(k, t, dead);
    ExitHead(k, t, dead);
    ExitLeaves(t, k.current);
    PrunedNodes(t, k.current);
    assert |[k.current] + dead| == |dead| + 1;
  }

  lemma LeafInMemory(k: State, t: Tree, dead: seq<Ptr>)
    requires WellFormed(k, t, dead) && k.current != NULL
    ensures k.current in k.mem
  {
    assert Holds(k.mem, t, k.current);
  }

  // ----- deferred free

  /** What is on the list after a drain: the pinned ones, in reverse order. */
  ghost function Requeued(rest: seq<Ptr>, pinned: set<Ptr>, kept: seq<Ptr>): seq<Ptr>
    decreases |rest|
  {
    if rest == [] then kept
    else Requeued(rest[1..], pinned, if rest[0] in pinned then [rest[0]] + kept else kept)
  }

  lemma {:induction false} RequeuedMembers(rest: seq<Ptr>, pinned: set<Ptr>, kept: seq<Ptr>, x: Ptr)
    ensures x in Requeued(rest, pinned, kept) <==> x in kept || (x in rest && x in pinned)
    decreases |rest|
  {
    if rest != [] {
      RequeuedMembers(rest[1..], pinned, if rest[0] in pinned then [rest[0]] + kept else kept, x);
    }
  }

  /** A list being drained: rest still to do, kept already back on the list. */
  ghost predicate Draining(k: State, t: Tree, node: Ptr, rest: seq<Ptr>, kept: seq<Ptr>) {
    && Represents(k.mem, t)
    && k.root == t.root
    && Chain(k.mem, node, rest)
    && Chain(k.mem, k.pending, kept)
    && Distinct(rest) && Distinct(kept)
    && (forall x | x in rest :: x !in kept && Buried(k.mem, t, x))
    && (forall x | x in kept :: Buried(k.mem, t, x))
    && (forall x {:trigger x in k.mem} | x in k.mem :: x in t.nodes || x in rest || x in kept)
  }

  lemma SetPrevRepresents(m: Mem, t: Tree, node: Ptr, q: Ptr)
    requires Represents(m, t) && node in m && node !in t.nodes
    ensures Represents(SetPrev(m, node, q), t)
  {
    forall x | x in t.nodes ensures Holds(SetPrev(m, node, q), t, x) {
      assert Holds(m, t, x);
    }
  }

  /** Putting a block at the head of a list it is not on. */
  lemma SetPrevChains(m: Mem, t: Tree, node: Ptr, head: Ptr, other: Ptr, list: seq<Ptr>)
    requires Chain(m, head, list) && node in m && node !in list
    requires forall x {:trigger Buried(m, t, x)} | x in list :: Buried(m, t, x)
    ensures Chain(SetPrev(m, node, other), head, list)
  {
    hide Chain;
    forall x | x in list ensures x in m && SetPrev(m, node, other)[x].prev == m[x].prev {
      assert Buried(m, t, x);
    }
    ChainKept(m, SetPrev(m, node, other), head, list);
  }

  lemma RequeueStep(k: State, t: Tree, node: Ptr, rest: seq<Ptr>, kept: seq<Ptr>)
    requires Draining(k, t, node, rest, kept) && rest != []
    ensures node in k.mem
    ensures Draining(k.(mem := SetPrev(k.mem, node, k.pending), pending := node), t,
                     k.mem[node].prev, rest[1..], [node] + kept)
  {
    hide Represents, Chain;
    var m' := SetPrev(k.mem, node, k.pending);
    ChainSteps(k.mem, node, rest);
    assert node in rest && Buried(k.mem, t, node);
    SetPrevRepresents(k.mem, t, node, k.pending);
    forall x | x in rest[1..] || x in kept ensures x != node && Buried(k.mem, t, x) && Buried(m', t, x) {
      assert Buried(k.mem, t, x);
    }
    SetPrevChains(k.mem, t, node, k.mem[node].prev, k.pending, rest[1..]);
    SetPrevChains(k.mem, t, node, k.pending, k.pending, kept);
    ChainGrows(m', node, k.pending, kept);
    assert Buried(m', t, node);
    forall x | x in [node] + kept ensures Buried(m', t, x) {
    }
  }

  lemma ChainGrows(m: Mem, node: Ptr, head: Ptr, list: seq<Ptr>)
    requires node in m && m[node].prev == head && Chain(m, head, list)
    ensures Chain(m, node, [node] + list)
  {
    assert ([node] + list)[1..] == list;
  }

  lemma FreeRepresents(m: Mem, t: Tree, node: Ptr)
    requires Represents(m, t) && node !in t.nodes
    ensures Represents(Without(m, node), t)
  {
    forall x | x in t.nodes ensures Holds(Without(m, node), t, x) {
      assert Holds(m, t, x);
    }
  }

  lemma FreeChain(m: Mem, t: Tree, node: Ptr, head: Ptr, list: seq<Ptr>)
    requires Chain(m, head, list) && node !in list
    requires forall x | x in list :: Buried(m, t, x)
    ensures Chain(Without(m, node), head, list)
    ensures forall x | x in list :: Buried(Without(m, node), t, x)
  {
    forall x | x in list ensures x in m && x in Without(m, node) && Without(m, node)[x] == m[x] {
      assert Buried(m, t, x);
    }
    ChainKept(m, Without(m, node), head, list);
  }

  lemma FreeStep(k: State, t: Tree, node: Ptr, rest: seq<Ptr>, kept: seq<Ptr>)
    requires Draining(k, t, node, rest, kept) && rest != []
    ensures node in k.mem
    ensures Draining(k.(mem := Without(k.mem, node), reclaimed := k.reclaimed + 1), t,
                     k.mem[node].prev, rest[1..], kept)
  {
    hide Represents, Buried, Chain;
    assert node == rest[0] && node in k.mem && Chain(k.mem, k.mem[node].prev, rest[1..]) by {
      ChainSteps(k.mem, node, rest);
    }
    assert node in rest && Buried(k.mem, t, node);
    assert node !in t.nodes by { BuriedOutside(k.mem, t, node); }
    FreeRepresents(k.mem, t, node);
    FreeChain(k.mem, t, node, k.mem[node].prev, rest[1..]);
    FreeChain(k.mem, t, node, k.pending, kept);
  }

  lemma ChainSteps(m: Mem, head: Ptr, list: seq<Ptr>)
    requires Chain(m, head, list) && list != []
    ensures head == list[0] && head in m && Chain(m, m[head].prev, list[1..])
  {
  }

  lemma BuriedOutside(m: Mem, t: Tree, x: Ptr)
    requires Buried(m, t, x)
    ensures x !in t.nodes
  {
  }

  lemma {:induction false} DrainReclaims(k: State, t: Tree, node: Ptr, rest: seq<Ptr>, kept: seq<Ptr>,
                                         pinned: set<Ptr>, budget: nat)
    requires Draining(k, t, node, rest, kept) && |rest| <= budget
    ensures var k', dead' := Drain(k, node, pinned, budget), Requeued(rest, pinned, kept);
            && Draining(k', t, NULL, [], dead')
            && k' == k.(mem := k'.mem, pending := k'.pending, reclaimed := k'.reclaimed)
            && k'.reclaimed + |dead'| == k.reclaimed + |rest| + |kept|
            && (forall x {:trigger k'.mem[x]} | x in k'.mem :: x in k.mem && k'.mem[x] == k.mem[x].(prev := k'.mem[x].prev))
    decreases budget
  {
    hide Draining, SetPrev;
    if rest == [] {
      assert node == NULL && NULL !in k.mem by { DrainedOut(k, t, node, kept); }
      DrainedOut(k, t, node, kept);
    } else {
      RequeueStep(k, t, node, rest, kept);
      FreeStep(k, t, node, rest, kept);
      var next := k.mem[node].prev;
      if node in pinned {
        var k1 := k.(mem := SetPrev(k.mem, node, k.pending), pending := node);
        assert node == rest[0] by { HeadOfRest(k, t, node, rest, kept); }
        SetPrevKeeps(k.mem, node, k.pending);
        DrainReclaims(k1, t, next, rest[1..], [node] + kept, pinned, budget - 1);
      } else {
        var k1 := k.(mem := Without(k.mem, node), reclaimed := k.reclaimed + 1);
        assert node == rest[0] by { HeadOfRest(k, t, node, rest, kept); }
        DrainReclaims(k1, t, next, rest[1..], kept, pinned, budget - 1);
      }
    }
  }

  lemma SetPrevKeeps(m: Mem, p: Ptr, q: Ptr)
    ensures SetPrev(m, p, q).Keys == m.Keys
    ensures forall x | x in m :: SetPrev(m, p, q)[x] == m[x].(prev := SetPrev(m, p, q)[x].prev)
  {
  }

  lemma HeadOfRest(k: State, t: Tree, node: Ptr, rest: seq<Ptr>, kept: seq<Ptr>)
    requires Draining(k, t, node, rest, kept) && rest != []
    ensures node == rest[0]
  {
  }

  lemma DrainedOut(k: State, t: Tree, node: Ptr, kept: seq<Ptr>)
    requires Draining(k, t, node, [], kept)
    ensures node == NULL && NULL !in k.mem && Draining(k, t, NULL, [], kept)
  {
  }

  /** Draining frees every finished thread the port does not pin, exactly once, and puts the
      pinned ones back; nothing in the tree moves. */
  lemma ReclaimWellFormed(k: State, t: Tree, dead: seq<Ptr>, pinned: set<Ptr>)
    requires WellFormed(k, t, dead)
    ensures var k', dead' := ReclaimFinished(k, pinned), Requeued(dead, pinned, []);
            && WellFormed(k', t, dead')
            && (forall x | x in dead && x !in pinned :: x !in k'.mem)
            && (forall x {:trigger k'.mem[x]} | x in k'.mem :: x in k.mem && k'.mem[x] == k.mem[x].(prev := k'.mem[x].prev))
            && k'.current == k.current && k'.ticks == k.ticks
  {
    hide Drain;
    var k0 := k.(pending := NULL);
    assert Draining(k0, t, k.pending, dead, []);
    forall i | 0 <= i < |dead| ensures dead[i] in k.mem {
      assert Buried(k.mem, t, dead[i]);
    }
    DistinctFits(dead, k.mem);
    DrainReclaims(k0, t, k.pending, dead, [], pinned, |k.mem|);
    forall x | x in dead && x !in pinned ensures x !in ReclaimFinished(k, pinned).mem {
      RequeuedMembers(dead, pinned, [], x);
      assert Buried(k.mem, t, x);
    }
  }
}
