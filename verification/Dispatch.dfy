/**
  Who runs next: the tree dispatch, as functions on kernel memory.

  Each function is the meaning of one loop of the scheduler, and the budget it counts down
  is the loop's own step limit.  Only the two ring walks have no limit in the source; they
  carry the number of allocated blocks instead, which no walk along a ring can exceed.
 */
module Dispatch {
  import opened Tree
  import opened Memory

  function WalkLimit(nodes: nat): nat { nodes + 2 }

  // ----- the ring walks

  function SkipBlocked(m: Mem, from: Ptr, p: Ptr, budget: nat): Ptr
    decreases budget
  {
    if p !in m then NULL
    else if !NotRunnable(m[p].state) then p
    else if m[p].next == from then (if Runnable(m, from) then from else NULL)
    else if budget == 0 then NULL
    else SkipBlocked(m, from, m[p].next, budget - 1)
  }

  function NextRunnable(m: Mem, from: Ptr): Ptr {
    if from !in m then NULL else SkipBlocked(m, from, m[from].next, |m|)
  }

  function FirstRunnableFrom(m: Mem, from: Ptr): Ptr {
    if from !in m || !NotRunnable(m[from].state) then from else NextRunnable(m, from)
  }

  // ----- going down

  function ArmIfNeeded(m: Mem, p: Ptr): Mem {
    if p in m && m[p].remaining == 0
    then SetRemaining(m, p, if m[p].slice == 0 then 1 else m[p].slice)
    else m
  }

  function ResumeChild(m: Mem, g: Ptr): Ptr {
    var cur := Cursor(m, g);
    if Head(m, g) !in m then NULL
    else if Runnable(m, cur) && Linked(m, cur) && Parent(m, cur) == g then cur
    else if Linked(m, cur) && NextRunnable(m, cur) != NULL then NextRunnable(m, cur)
    else FirstRunnableFrom(m, Head(m, g))
  }

  function DescendAndArm(m: Mem, node: Ptr, budget: nat): (Mem, Ptr)
    decreases budget
  {
    if IsGroup(m, node) then
      if budget == 0 then (m, NULL)
      else
        var armed := ArmIfNeeded(m, node);
        var child := ResumeChild(armed, node);
        if !Runnable(armed, child) then (armed, NULL)
        else DescendAndArm(SetCursor(armed, node, child), child, budget - 1)
    else if !Runnable(m, node) then (m, NULL)
    else (ArmIfNeeded(m, node), node)
  }

  // ----- handing the turn on

  /** One lap of a ring from p to start, stopping at the first child that has a leaf to
      offer. */
  function ScanRing(m: Mem, g: Ptr, start: Ptr, p: Ptr, limit: nat, budget: nat): (Mem, Ptr)
    decreases budget
  {
    var (tried, leaf) := if Runnable(m, p) then DescendAndArm(m, p, limit) else (m, NULL);
    if leaf != NULL then ((if g in tried then SetCursor(tried, g, p) else tried), leaf)
    else
      var q := Next(tried, p);
      if !Linked(tried, q) || q == start || budget == 0 then (tried, NULL)
      else ScanRing(tried, g, start, q, limit, budget - 1)
  }

  function ScanStart(m: Mem, g: Ptr): Ptr {
    var cur := Cursor(m, g);
    if Linked(m, cur) && Parent(m, cur) == g then Next(m, cur) else Head(m, g)
  }

  function AdvanceFrom(m: Mem, g: Ptr, limit: nat, budget: nat): (Mem, Ptr)
    decreases budget
  {
    if g !in m || budget == 0 then (m, NULL)
    else
      var (tried, leaf) :=
        if Linked(m, Head(m, g)) then ScanRing(m, g, ScanStart(m, g), ScanStart(m, g), limit, |m|)
        else (m, NULL);
      if leaf != NULL then (tried, leaf) else AdvanceFrom(tried, Parent(tried, g), limit, budget - 1)
  }

  function OutermostExhausted(m: Mem, p: Ptr, found: Ptr, budget: nat): Ptr
    decreases budget
  {
    if p !in m || budget == 0 then found
    else OutermostExhausted(m, m[p].parent, if m[p].remaining == 0 then p else found, budget - 1)
  }

  /** Every spent node on the path strictly below z loses its place in its ring. */
  function RetireSpent(m: Mem, n: Ptr, z: Ptr, budget: nat): Mem
    decreases budget
  {
    if n !in m || n == z || budget == 0 then m
    else RetireSpent(RetireOne(m, n), m[n].parent, z, budget - 1)
  }

  function RetireOne(m: Mem, n: Ptr): Mem
    requires n in m
  {
    var parent := m[n].parent;
    var next := NextRunnable(m, n);
    if m[n].remaining == 0 && parent in m && next in m && m[next].parent == parent
    then SetCursor(m, parent, next)
    else m
  }

  function PickNextLeaf(m: Mem, root: Ptr, cur: Ptr, limit: nat): (Mem, Ptr) {
    if root !in m then (m, NULL)
    else if cur !in m then
      var (tried, leaf) := DescendAndArm(m, ResumeChild(m, root), limit);
      if leaf != NULL then (tried, leaf) else AdvanceFrom(tried, root, limit, limit)
    else
      var z := OutermostExhausted(m, cur, NULL, limit);
      if z == NULL then
        if Runnable(m, cur) then (m, cur) else AdvanceFrom(m, root, limit, limit)
      else
        var retired := RetireSpent(m, cur, z, limit + 1);
        if z == root || Parent(retired, z) !in retired then AdvanceFrom(retired, root, limit, limit)
        else AdvanceFrom(retired, Parent(retired, z), limit, limit)
  }

  // ----- the switch

  function HandOver(m: Mem, cur: Ptr, next: Ptr): Mem
    requires next in m
  {
    var left := if cur in m && m[cur].state.Running? then SetState(m, cur, Ready) else m;
    SetState(left, next, Running)
  }

  function ScheduleNext(k: State): (State, Ptr) {
    var cur := if k.current in k.mem && !Linked(k.mem, k.current) then NULL else k.current;
    var (m, next) := PickNextLeaf(k.mem, k.root, cur, WalkLimit(k.nodes));
    var k' := k.(mem := m, current := cur);
    if !Linked(m, next) then (k', NULL)
    else if next == cur then (k', next)
    else (k'.(mem := HandOver(m, cur, next), current := next, switches := k.switches + 1), next)
  }

  // ----- the tick

  function DrainPath(m: Mem, n: Ptr, budget: nat): Mem
    decreases budget
  {
    if n !in m || budget == 0 then m
    else DrainPath(SetRemaining(m, n, if m[n].remaining == 0 then 0 else m[n].remaining - 1),
                   m[n].parent, budget - 1)
  }
}
