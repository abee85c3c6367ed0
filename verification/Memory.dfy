/**
  Kernel memory: task control blocks and the links between them.

  A pointer is an address; NULL (zero) is never allocated.  Memory maps the allocated
  addresses to control blocks, so the source's null test is "not in memory".  That reading
  is exact as long as no link dangles, which is what Represents (below) and the life-cycle
  invariants establish for every link the kernel follows.
 */
module Memory {
  import opened RoundRobin
  import opened Tree

  const U32_MAX: nat := 0xFFFF_FFFF

  datatype Kind = Leaf | Group

  datatype TaskState = Ready | Running | Dead | Blocked

  datatype Tcb = Tcb(
    kind: Kind,
    state: TaskState,
    woken: bool,
    next: Ptr,
    prev: Ptr,
    id: nat,
    slice: nat,
    remaining: nat,
    blockedOn: nat,
    deadline: nat,
    parent: Ptr,
    head: Ptr,
    cursor: Ptr)

  type Mem = map<Ptr, Tcb>

  /** The kernel's global record, with the memory its pointers lead into. */
  datatype State = State(
    mem: Mem,
    root: Ptr,
    current: Ptr,
    ringHead: Ptr,
    pending: Ptr,
    ticks: nat,
    switches: nat,
    nodes: nat,
    total: nat,
    active: nat,
    reclaimed: nat,
    nextId: nat,
    blocksWithoutCurrent: nat)

  // ----- reading links; a null pointer reads as null

  function Next(m: Mem, p: Ptr): Ptr { if p in m then m[p].next else NULL }

  function Parent(m: Mem, p: Ptr): Ptr { if p in m then m[p].parent else NULL }

  function Head(m: Mem, p: Ptr): Ptr { if p in m then m[p].head else NULL }

  function Cursor(m: Mem, p: Ptr): Ptr { if p in m then m[p].cursor else NULL }

  function Remaining(m: Mem, p: Ptr): nat { if p in m then m[p].remaining else 0 }

  predicate IsGroup(m: Mem, p: Ptr) { p in m && m[p].kind.Group? }

  predicate Linked(m: Mem, p: Ptr) { p in m && m[p].next != NULL }

  predicate NotRunnable(s: TaskState) { s.Dead? || s.Blocked? }

  predicate Runnable(m: Mem, p: Ptr) { p in m && !NotRunnable(m[p].state) }

  // ----- writing fields

  function SetRemaining(m: Mem, p: Ptr, r: nat): Mem
    requires p in m
  {
    m[p := m[p].(remaining := r)]
  }

  function SetCursor(m: Mem, p: Ptr, c: Ptr): Mem
    requires p in m
  {
    m[p := m[p].(cursor := c)]
  }

  function SetState(m: Mem, p: Ptr, s: TaskState): Mem
    requires p in m
  {
    m[p := m[p].(state := s)]
  }

  function Without(m: Mem, p: Ptr): Mem { m - {p} }

  // ----- memory that holds a tree

  /** x's neighbours in its ring. */
  ghost function After(t: Tree, x: Ptr): (y: Ptr)
    requires Valid(t) && x in t.nodes && x != t.root
    ensures y in t.nodes && y != t.root && t.nodes[y].parent == t.nodes[x].parent
  {
    assert NodeOk(t, x);
    var ring := t.kids[t.nodes[x].parent];
    ring[Succ(t.nodes[x].pos, |ring|)]
  }

  ghost function Pred(i: nat, n: nat): nat
    requires i < n
  {
    if i == 0 then n - 1 else i - 1
  }

  ghost function Before(t: Tree, x: Ptr): (y: Ptr)
    requires Valid(t) && x in t.nodes && x != t.root
    ensures y in t.nodes && y != t.root && t.nodes[y].parent == t.nodes[x].parent
  {
    assert NodeOk(t, x);
    var ring := t.kids[t.nodes[x].parent];
    ring[Pred(t.nodes[x].pos, |ring|)]
  }

  ghost predicate IsKid(t: Tree, g: Ptr, c: Ptr) {
    c in t.nodes && t.nodes[c].parent == g
  }

  /** The control block at x is the one the tree calls for: ring links, parent, kind and
      slice are x's own; a group's head is its first child and its cursor one of its
      children (or both null); a leaf has no children; nothing linked is dead. */
  ghost predicate Holds(m: Mem, t: Tree, x: Ptr)
    requires Valid(t) && x in t.nodes
  {
    && x in m
    && m[x].slice == t.nodes[x].slice
    && m[x].parent == t.nodes[x].parent
    && m[x].remaining <= m[x].slice
    && (m[x].kind.Group? <==> x in t.kids)
    && (x == t.root ==> m[x].next == NULL)
    && (x != t.root ==> m[x].next == After(t, x) && m[x].prev == Before(t, x))
    && (x in t.kids ==>
          && m[x].state.Ready?
          && (|t.kids[x]| == 0 ==> m[x].head == NULL && m[x].cursor == NULL)
          && (|t.kids[x]| > 0 ==> m[x].head == t.kids[x][0] && IsKid(t, x, m[x].cursor)))
    && (x !in t.kids ==> m[x].head == NULL && m[x].cursor == NULL && !m[x].state.Dead?)
  }

  ghost predicate Represents(m: Mem, t: Tree) {
    && Valid(t)
    && NULL !in m
    && forall x {:trigger Holds(m, t, x)} | x in t.nodes :: Holds(m, t, x)
  }
}
