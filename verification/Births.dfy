/**
  What a spawn leaves behind: the newcomer as it was asked for, and everybody else as they
  were but for the links of its two neighbours.
 */
module Births {
  import opened Tree
  import opened Memory
  import opened Dispatch
  import opened Lifecycle
  import opened Growth
  import opened Rings
  import opened Invariant
  import opened Books
  import opened Runs
  import opened Ledger

  /** The newcomer: a full quantum of what was asked for (one tick at least), ready, never woken,
      waiting for nothing, with the id that was next and no children. */
  ghost predicate Newborn(c: Tcb, id: nat, kind: Kind, parent: Ptr, quantum: nat) {
    && c.slice == c.remaining == (if quantum == 0 then 1 else quantum)
    && c.state.Ready? && !c.woken && c.deadline == 0 && c.blockedOn == 0
    && c.id == id && c.kind == kind && c.parent == parent
    && c.head == NULL && c.cursor == NULL
  }

  /** Everybody else keeps every field but the ring links; a parent that had children keeps its
      head and its cursor, and one that had none has the newcomer for both. */
  ghost predicate OthersKept(m: Mem, m': Mem, parent: Ptr, node: Ptr) {
    && m'.Keys == m.Keys + {node}
    && forall x {:trigger m'[x]} | x in m ::
         m'[x] == m[x].(next := m'[x].next, prev := m'[x].prev,
                        head := if x == parent && m[x].head == NULL then node else m[x].head,
                        cursor := if x == parent && m[x].cursor == NULL then node else m[x].cursor)
  }

  ghost predicate Born(k: State, k': State, t: Tree, t': Tree, kind: Kind, parent: Ptr, quantum: nat, node: Ptr) {
    && node in k'.mem && Newborn(k'.mem[node], k.nextId, kind, parent, quantum)
    && OthersKept(k.mem, k'.mem, parent, node)
    && node in t'.nodes && t'.nodes[node].slice == (if quantum == 0 then 1 else quantum)
    && (forall x | x in t.nodes :: x in t'.nodes && t'.nodes[x].slice == t.nodes[x].slice)
    && k' == k.(mem := k'.mem, nodes := k.nodes + 1, nextId := k.nextId + 1,
                ringHead := if parent == k.root then node else k.ringHead,
                total := if kind.Leaf? then k.total + 1 else k.total,
                active := if kind.Leaf? then k.active + 1 else k.active)
  }

  lemma LinkingKeeps(m: Mem, t: Tree, g: Ptr, node: Ptr, x: Ptr)
    requires x in m && Valid(t) && g in t.kids && node != NULL && g in m && node in m && g != node
    requires if |t.kids[g]| == 0 then m[g].head == NULL && m[g].cursor == NULL
             else m[g].head != NULL && m[g].cursor != NULL && IsKid(t, g, m[g].cursor) && m[g].cursor != t.root
    ensures var c := Linking(m, t, g, node, x);
            c == m[x].(next := c.next, prev := c.prev,
                       head := if x == g && m[x].head == NULL then node else m[x].head,
                       cursor := if x == g && m[x].cursor == NULL then node else m[x].cursor)
  {
  }

  lemma SpawnIsBorn(k: State, t: Tree, dead: seq<Ptr>, kind: Kind, g: Ptr, quantum: nat, slot: Ptr)
    requires WellFormed(k, t, dead) && g in t.kids && slot != NULL && slot !in k.mem
    ensures var born := if kind.Leaf? then 1 else 0;
            var k' := InsertChild(WithTcb(k, kind, g, quantum, slot), g, slot)
                      .(total := k.total + born, active := k.active + born);
            Born(k, k', t, SpawnTree(k, t, dead, kind, g, quantum, slot), kind, g, quantum, slot)
  {
    hide InsertChild, WellFormed, OthersKept, Newborn, NewTree, Spawning, NewTcb;
    SpawnedTree(k, t, dead, kind, g, quantum, slot);
    SpawnedMemory(k, t, dead, kind, g, quantum, slot);
    InsertLeaves(WithTcb(k, kind, g, quantum, slot), g, slot);
  }

  lemma SpawnedTree(k: State, t: Tree, dead: seq<Ptr>, kind: Kind, g: Ptr, quantum: nat, slot: Ptr)
    requires WellFormed(k, t, dead) && g in t.kids && slot != NULL && slot !in k.mem
    ensures var t' := SpawnTree(k, t, dead, kind, g, quantum, slot);
            && slot in t'.nodes && t'.nodes[slot].slice == (if quantum == 0 then 1 else quantum)
            && (forall x | x in t.nodes :: x in t'.nodes && t'.nodes[x].slice == t.nodes[x].slice)
  {
    hide NewTree, WellFormed;
    SpawnSetsUp(k, t, dead, kind, g, quantum, slot);
    InsertedNodes(WithTcb(k, kind, g, quantum, slot).mem, t, g, slot, AtLeastOne(quantum), kind.Group?);
  }

  lemma SpawnedMemory(k: State, t: Tree, dead: seq<Ptr>, kind: Kind, g: Ptr, quantum: nat, slot: Ptr)
    requires WellFormed(k, t, dead) && g in t.kids && slot != NULL && slot !in k.mem
    ensures var m' := InsertChild(WithTcb(k, kind, g, quantum, slot), g, slot).mem;
            && slot in m' && Newborn(m'[slot], k.nextId, kind, g, quantum)
            && OthersKept(k.mem, m', g, slot)
  {
    hide InsertChild, NewTree, WellFormed, Linking;
    var k1 := WithTcb(k, kind, g, quantum, slot);
    var m, m' := k1.mem, InsertChild(k1, g, slot).mem;
    SpawnSetsUp(k, t, dead, kind, g, quantum, slot);
    InsertLinks(k1, t, g, slot, AtLeastOne(quantum), kind.Group?);
    ParentReady(k, t, dead, g);
    forall x | x in m ensures m'[x] == Linking(m, t, g, slot, x) {
    }
    forall x | x in m {
      LinkingKeeps(m, t, g, slot, x);
    }
  }

  lemma ParentReady(k: State, t: Tree, dead: seq<Ptr>, g: Ptr)
    requires WellFormed(k, t, dead) && g in t.kids
    ensures Valid(t) && g in k.mem
    ensures if |t.kids[g]| == 0 then k.mem[g].head == NULL && k.mem[g].cursor == NULL
            else k.mem[g].head != NULL && k.mem[g].cursor != NULL && IsKid(t, g, k.mem[g].cursor) && k.mem[g].cursor != t.root
  {
    assert Holds(k.mem, t, g) && NodeOk(t, t.root);
    if |t.kids[g]| > 0 {
      assert KidOk(t, g, 0);
      KidIsNotRoot(t, g, k.mem[g].cursor);
    }
  }

  lemma InsertLeaves(k: State, g: Ptr, node: Ptr)
    ensures InsertChild(k, g, node)
         == k.(mem := InsertChild(k, g, node).mem, ringHead := if g == k.root then node else k.ringHead)
  {
  }
}
