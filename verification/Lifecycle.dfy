/**
  Birth and death of tree nodes: spawn, exit and deferred free, as functions on the kernel
  state.
 */
module Lifecycle {
  import opened Tree
  import opened Memory
  import opened Dispatch

  // ----- ring surgery

  function SetNext(m: Mem, p: Ptr, q: Ptr): Mem { if p in m then m[p := m[p].(next := q)] else m }

  function SetPrev(m: Mem, p: Ptr, q: Ptr): Mem { if p in m then m[p := m[p].(prev := q)] else m }

  function Prev(m: Mem, p: Ptr): Ptr { if p in m then m[p].prev else NULL }

  function InsertAfter(m: Mem, anchor: Ptr, node: Ptr): Mem {
    if anchor !in m then SetPrev(SetNext(m, node, node), node, node)
    else
      var after := Next(m, anchor);
      SetPrev(SetNext(SetNext(SetPrev(m, node, anchor), node, after), anchor, node), after, node)
  }

  function Unlink(m: Mem, node: Ptr): (Mem, Ptr) {
    var next, prev := Next(m, node), Prev(m, node);
    if next == node then (SetPrev(SetNext(m, node, NULL), node, NULL), NULL)
    else (SetPrev(SetNext(SetPrev(SetNext(m, prev, next), next, prev), node, NULL), node, NULL), next)
  }

  // ----- spawn

  function ZeroTcb(): Tcb {
    Tcb(Leaf, Ready, false, NULL, NULL, 0, 0, 0, 0, 0, NULL, NULL, NULL)
  }

  function AtLeastOne(n: nat): nat { if n == 0 then 1 else n }

  /** The newcomer goes right behind the group's cursor, or starts the ring. */
  function Anchor(m: Mem, parent: Ptr): Ptr {
    var cur := Cursor(m, parent);
    if Linked(m, cur) && Parent(m, cur) == parent then cur else Head(m, parent)
  }

  function InsertChild(k: State, parent: Ptr, node: Ptr): State {
    var m := k.mem;
    var anchor := Anchor(m, parent);
    var m1 := InsertAfter(m, if Linked(m, anchor) then anchor else NULL, node);
    var m2 := if parent in m1 then
                m1[parent := m1[parent].(
                  head := if m1[parent].head == NULL then node else m1[parent].head,
                  cursor := if m1[parent].cursor == NULL then node else m1[parent].cursor)]
              else m1;
    k.(mem := m2, ringHead := if parent == k.root then node else k.ringHead)
  }

  /** What the allocator and the port answer to a spawn. */
  datatype Supply = NoTcb | NoClosure | NoBackend | Granted(slot: Ptr)

  function NewTcb(k: State, kind: Kind, parent: Ptr, quantum: nat): Tcb {
    ZeroTcb().(kind := kind, id := k.nextId, parent := parent,
               slice := AtLeastOne(quantum), remaining := AtLeastOne(quantum))
  }

  function SpawnGroup(k: State, parent: Ptr, quantum: nat, supply: Supply): (State, Ptr) {
    if parent !in k.mem || !supply.Granted? then (k, NULL)
    else
      var k1 := k.(mem := k.mem[supply.slot := NewTcb(k, Group, parent, quantum)],
                   nodes := k.nodes + 1, nextId := k.nextId + 1);
      (InsertChild(k1, parent, supply.slot), supply.slot)
  }

  /** A spawn that fails half-way gives its block back, but the node counter (and, once the
      port was asked, the task id) stays spent. */
  function SpawnLeaf(k: State, parent: Ptr, quantum: nat, supply: Supply): (State, Ptr) {
    match supply
    case NoTcb => (k, NULL)
    case NoClosure => (k.(nodes := k.nodes + 1), NULL)
    case NoBackend => (k.(nodes := k.nodes + 1, nextId := k.nextId + 1), NULL)
    case Granted(slot) =>
      var k1 := k.(mem := k.mem[slot := NewTcb(k, Leaf, parent, quantum)],
                   nodes := k.nodes + 1, nextId := k.nextId + 1);
      (InsertChild(k1, parent, slot).(total := k.total + 1, active := k.active + 1), slot)
  }

  // ----- exit

  function PastMember(c: Tcb, me: Ptr, succ: Ptr): Tcb {
    c.(head := if c.head == me then succ else c.head, cursor := if c.cursor == me then succ else c.cursor)
  }

  function ExitTask(k: State): State {
    var me := k.current;
    if me !in k.mem then k
    else
      var (m1, succ) := Unlink(SetState(k.mem, me, Dead), me);
      var parent := Parent(m1, me);
      var m2 := if parent in m1 then m1[parent := PastMember(m1[parent], me, succ)] else m1;
      k.(mem := SetPrev(m2, me, k.pending),
         pending := me,
         ringHead := if k.root !in k.mem || parent == k.root then succ else k.ringHead,
         current := NULL,
         active := if k.active == 0 then 0 else k.active - 1)
  }

  // ----- deferred free

  /** Drain the list starting at node; what the port still needs goes back on the list. */
  function Drain(k: State, node: Ptr, pinned: set<Ptr>, budget: nat): State
    decreases budget
  {
    if node !in k.mem || budget == 0 then k
    else
      var next := k.mem[node].prev;
      if node in pinned
      then Drain(k.(mem := SetPrev(k.mem, node, k.pending), pending := node), next, pinned, budget - 1)
      else Drain(k.(mem := Without(k.mem, node), reclaimed := k.reclaimed + 1), next, pinned, budget - 1)
  }

  function ReclaimFinished(k: State, pinned: set<Ptr>): State {
    Drain(k.(pending := NULL), k.pending, pinned, |k.mem|)
  }
}
