/**
  The scheduler as it runs: one kernel object whose fields are updated in place, with the
  source's loops.  Every method is proved equal to the function of the same name, which is
  what the theorems of the other modules are about.
 */
module Scheduler {
  import opened Lists
  import opened Tree
  import opened Memory
  import opened Climb
  import opened Rings
  import opened Soundness
  import opened Timeline
  import opened Callbacks
  import opened Invariant
  import D = Dispatch
  import W = Walk
  import B = Blocking
  import L = Lifecycle
  import opened Books
  import opened Runs
  import opened WalkOrder
  import Departure
  import Growth
  import C = Circles
  import Choice
  import Births
  import Exits
  import Waking
  import Handover
  import Deadlines

  class Kernel {
    var mem: Mem
    var root: Ptr
    var current: Ptr
    var ringHead: Ptr
    var pending: Ptr
    var ticks: nat
    var switches: nat
    var nodes: nat
    var total: nat
    var active: nat
    var reclaimed: nat
    var nextId: nat
    var blocksWithoutCurrent: nat
    ghost var tree: Tree
    ghost var dead: seq<Ptr>

    ghost function View(): State
      reads this
    {
      State(mem, root, current, ringHead, pending, ticks, switches, nodes, total, active,
            reclaimed, nextId, blocksWithoutCurrent)
    }

    /** The kernel invariant, for the tree and the deferred-free list the object carries. */
    ghost predicate Intact()
      reads this
    {
      WellFormed(View(), tree, dead)
    }

    // ----- ring.rs

    method NextRunnable(from: Ptr) returns (r: Ptr)
      requires Represents(mem, tree)
      requires from in mem ==> from in tree.nodes && from != tree.root
      ensures r == D.NextRunnable(mem, from)
      ensures from in mem ==> FirstAfter(mem, tree, from, r)
    {
      if from !in mem {
        return NULL;
      }
      NextRunnableIsFirst(mem, tree, from);
      RingFits(mem, tree, from);
      NextInMemory(mem, tree, from);
      var p := mem[from].next;
      ghost var d, budget := 1, |mem|;
      assert Around(tree, from, 1) == After(tree, Around(tree, from, 0));
      while p in mem && NotRunnable(mem[p].state)
        invariant 1 <= d <= RingSize(tree, from) && budget + d == |mem| + 1
        invariant p == Around(tree, from, d)
        invariant p == from ==> d == 1
        invariant D.NextRunnable(mem, from) == D.SkipBlocked(mem, from, p, budget)
        decreases budget
      {
        NextInMemory(mem, tree, p);
        FullLap(tree, from, d);
        assert d < RingSize(tree, from) ==> Around(tree, from, d + 1) == After(tree, p);
        p := mem[p].next;
        if p == from {
          return if NotRunnable(mem[from].state) then NULL else from;
        }
        d, budget := d + 1, budget - 1;
        FullLap(tree, from, d);
      }
      return if p in mem then p else NULL;
    }

    method FirstRunnableFrom(from: Ptr) returns (r: Ptr)
      requires Represents(mem, tree)
      requires from in mem ==> from in tree.nodes && from != tree.root
      ensures r == D.FirstRunnableFrom(mem, from)
      ensures Runnable(mem, from) ==> r == from
      ensures from in mem && !Runnable(mem, from) ==> FirstAfter(mem, tree, from, r)
    {
      if from !in mem || !NotRunnable(mem[from].state) {
        return from;
      }
      r := NextRunnable(from);
    }

    /** Counting the nodes of a ring. */
    method Len(any: Ptr) returns (n: nat)
      requires Represents(mem, tree)
      requires any in mem ==> any in tree.nodes && any != tree.root
      ensures n == if any in mem then |tree.kids[ParentOf(tree, any)]| else 0
    {
      if any !in mem {
        return 0;
      }
      NextInMemory(mem, tree, any);
      n := 1;
      var p := mem[any].next;
      assert Around(tree, any, 1) == After(tree, Around(tree, any, 0));
      FullLap(tree, any, 1);
      while p != any && p in mem
        invariant 1 <= n <= RingSize(tree, any) && p == Around(tree, any, n)
        decreases RingSize(tree, any) - n
      {
        FullLap(tree, any, n);
        NextInMemory(mem, tree, p);
        p := mem[p].next;
        n := n + 1;
      }
      NextInMemory(mem, tree, p);
      FullLap(tree, any, n);
    }

    // ----- scheduler.rs: going down

    method ArmIfNeeded(p: Ptr) returns (left: nat)
      requires p in mem
      modifies `mem
      ensures mem == D.ArmIfNeeded(old(mem), p)
      ensures left == mem[p].remaining >= 1
      ensures old(mem[p].remaining) > 0 ==> mem == old(mem)
      ensures old(mem[p].remaining) == 0 && old(mem[p].slice) >= 1 ==> left == mem[p].slice
      ensures old(mem[p].remaining) == 0 && old(mem[p].slice) == 0 ==> left == 1
    {
      if mem[p].remaining == 0 {
        mem := mem[p := mem[p].(remaining := if mem[p].slice == 0 then 1 else mem[p].slice)];
      }
      left := mem[p].remaining;
    }

    method ResumeChild(group: Ptr) returns (child: Ptr)
      requires Represents(mem, tree) && group in tree.kids
      ensures child == D.ResumeChild(mem, group)
      ensures if Runnable(mem, Cursor(mem, group)) then child == Cursor(mem, group)
              else if child == NULL then NobodyRunsIn(mem, tree, group)
              else IsKid(tree, group, child) && Runnable(mem, child)
    {
      ResumeIsFair(mem, tree, group);
      assert Holds(mem, tree, group);
      var head := mem[group].head;
      if head !in mem {
        return NULL;
      }
      ghost var ring := tree.kids[group];
      assert |ring| > 0 ==> KidOk(tree, group, 0);
      var cur := mem[group].cursor;
      assert NodeOk(tree, cur) && NodeOk(tree, tree.root);
      if Runnable(mem, cur) && Linked(mem, cur) && mem[cur].parent == group {
        return cur;
      }
      if Linked(mem, cur) {
        var n := NextRunnable(cur);
        if n != NULL {
          return n;
        }
      }
      child := FirstRunnableFrom(head);
    }

    /** Going down to the end of the start's resume chain, if that yields. */
    method DescendAndArm(start: Ptr) returns (leaf: Ptr)
      requires Represents(mem, tree) && (start == NULL || start in tree.nodes)
      modifies `mem
      ensures (mem, leaf) == D.DescendAndArm(old(mem), start, D.WalkLimit(nodes))
      ensures Represents(mem, tree) && Stepped(old(mem), mem, tree)
      ensures leaf != NULL ==> Offered(mem, tree, start, leaf)
      ensures tree.depth <= D.WalkLimit(nodes) ==> Choice.Descended(old(mem), mem, tree, start, leaf)
    {
      hide Choice.Descended, D.DescendAndArm, Represents, Stepped, Offered;
      Choice.DescendDone(mem, tree, start, D.WalkLimit(nodes));
      leaf := Descend(start);
    }

    /** The loop itself. */
    method Descend(start: Ptr) returns (leaf: Ptr)
      requires Represents(mem, tree) && (start == NULL || start in tree.nodes)
      modifies `mem
      ensures (mem, leaf) == D.DescendAndArm(old(mem), start, D.WalkLimit(nodes))
      ensures Represents(mem, tree) && Stepped(old(mem), mem, tree)
      ensures leaf != NULL ==> Offered(mem, tree, start, leaf)
    {
      hide Offered, Stepped, Valid, D.ResumeChild;
      DescentOffers(mem, tree, start, D.WalkLimit(nodes));
      DescentBegins(mem, tree);
      var node, depth, limit := start, 0, D.WalkLimit(nodes);
      while IsGroup(mem, node)
        invariant node == NULL || node in tree.nodes
        invariant depth <= limit
        invariant Represents(mem, tree) && Stepped(old(mem), mem, tree)
        invariant D.DescendAndArm(old(mem), start, limit) == D.DescendAndArm(mem, node, limit - depth)
        decreases limit + 1 - depth
      {
        depth := depth + 1;
        if depth > limit {
          return NULL;
        }
        ghost var m := mem;
        assert Holds(m, tree, node);
        var _ := ArmIfNeeded(node);
        ArmSteps(m, tree, node);
        StepOn(old(mem), m, mem, tree);
        var child := ResumeChild(node);
        if !Runnable(mem, child) {
          return NULL;
        }
        ResumeIsFair(mem, tree, node);
        m := mem;
        CursorSteps(m, tree, node, child);
        mem := mem[node := mem[node].(cursor := child)];
        StepOn(old(mem), m, mem, tree);
        node := child;
      }
      if !Runnable(mem, node) {
        return NULL;
      }
      ghost var m := mem;
      var _ := ArmIfNeeded(node);
      ArmSteps(m, tree, node);
      StepOn(old(mem), m, mem, tree);
      leaf := node;
    }

    // ----- scheduler.rs: handing the turn on

    /** One lap of group's ring, starting behind its cursor. */
    method ScanRing(group: Ptr) returns (leaf: Ptr)
      requires Represents(mem, tree) && group in tree.kids && Linked(mem, Head(mem, group))
      modifies `mem
      ensures var m, start := old(mem), D.ScanStart(old(mem), group);
              (mem, leaf) == D.ScanRing(m, group, start, start, D.WalkLimit(nodes), |m|)
      ensures Represents(mem, tree) && Stepped(old(mem), mem, tree)
    {
      hide Choice.Descended, Offered, D.DescendAndArm, D.ScanRing, Stepped, Represents, Around, RingSize, IsKid, Valid;
      LapStart(mem, tree, group);
      var cur := mem[group].cursor;
      var start := if Linked(mem, cur) && mem[cur].parent == group then mem[cur].next else mem[group].head;
      var p := start;
      ghost var d, limit := 0, D.WalkLimit(nodes);
      ghost var found := D.ScanRing(mem, group, start, start, limit, |mem|);
      while true
        invariant Valid(tree) && d < RingSize(tree, start) && p == Around(tree, start, d)
        invariant Represents(mem, tree) && Stepped(old(mem), mem, tree)
        invariant RingSize(tree, start) <= |old(mem)|
        invariant found == D.ScanRing(mem, group, start, p, limit, |old(mem)| - d)
        decreases RingSize(tree, start) - d
      {
        ghost var m := mem;
        LapStep(old(mem), mem, tree, group, start, d);
        ScanOnce(mem, group, start, p, limit, |old(mem)| - d);
        if Runnable(mem, p) {
          leaf := DescendAndArm(p);
          SteppedTrans(old(mem), m, mem, tree);
          if leaf != NULL {
            CursorTo(old(mem), mem, tree, group, p);
            mem := mem[group := mem[group].(cursor := p)];
            return;
          }
        }
        LapStep(old(mem), mem, tree, group, start, d);
        p := mem[p].next;
        if !Linked(mem, p) || p == start {
          return NULL;
        }
        d := d + 1;
      }
    }

    static lemma ScanOnce(m: Mem, g: Ptr, start: Ptr, p: Ptr, limit: nat, budget: nat)
      ensures D.ScanRing(m, g, start, p, limit, budget) ==
                var (tried, leaf) := if Runnable(m, p) then D.DescendAndArm(m, p, limit) else (m, NULL);
                if leaf != NULL then ((if g in tried then SetCursor(tried, g, p) else tried), leaf)
                else if !Linked(tried, Next(tried, p)) || Next(tried, p) == start || budget == 0 then (tried, NULL)
                else D.ScanRing(tried, g, start, Next(tried, p), limit, budget - 1)
    {
      hide D.DescendAndArm;
    }

    static lemma LapStart(m: Mem, t: Tree, group: Ptr)
      requires Represents(m, t) && group in t.kids && Linked(m, Head(m, group))
      ensures Valid(t) && group in m && Stepped(m, m, t)
      ensures var start := D.ScanStart(m, group);
              start in t.nodes && start != t.root && ParentOf(t, start) == group && RingSize(t, start) <= |m|
              && Around(t, start, 0) == start
    {
      assert Holds(m, t, group);
      ScanStartIsKid(m, t, group);
      KidIsNotRoot(t, group, D.ScanStart(m, group));
      RingFits(m, t, D.ScanStart(m, group));
    }

    /** Where the lap stands after d steps, and where the next one leads. */
    static lemma LapStep(m0: Mem, m: Mem, t: Tree, group: Ptr, start: Ptr, d: nat)
      requires Represents(m, t) && Stepped(m0, m, t)
      requires start in t.nodes && start != t.root && ParentOf(t, start) == group
      requires d < RingSize(t, start)
      ensures |m| == |m0| && RingSize(t, start) <= |m| && group in m && group in t.kids
      ensures var p := Around(t, start, d);
              && p in m && p in t.nodes && IsKid(t, group, p)
              && m[p].next == Around(t, start, d + 1) && Linked(m, m[p].next)
              && (m[p].next == start <==> d + 1 == RingSize(t, start))
    {
      var p := Around(t, start, d);
      assert |m| == |m.Keys| && |m0| == |m0.Keys|;
      RingFits(m, t, start);
      assert Holds(m, t, ParentOf(t, start));
      NextInMemory(m, t, p);
      NextInMemory(m, t, After(t, p));
      FullLap(t, start, d + 1);
    }

    static lemma CursorTo(m0: Mem, m: Mem, t: Tree, group: Ptr, p: Ptr)
      requires Represents(m, t) && Stepped(m0, m, t) && group in m && group in t.kids && IsKid(t, group, p)
      ensures Represents(SetCursor(m, group, p), t) && Stepped(m0, SetCursor(m, group, p), t)
    {
      CursorSteps(m, t, group, p);
      StepOn(m0, m, SetCursor(m, group, p), t);
    }

    method AdvanceFrom(from: Ptr) returns (leaf: Ptr)
      requires Represents(mem, tree) && from in tree.kids
      modifies `mem
      ensures (mem, leaf) == D.AdvanceFrom(old(mem), from, D.WalkLimit(nodes), D.WalkLimit(nodes))
      ensures Represents(mem, tree) && Stepped(old(mem), mem, tree)
      ensures leaf != NULL ==> CanRun(mem, tree, leaf)
      ensures tree.depth <= D.WalkLimit(nodes) ==> exists h, c :: Choice.Advanced(old(mem), mem, tree, from, h, c, leaf)
    {
      ghost var _, _ := Choice.AdvanceDone(mem, tree, from, D.WalkLimit(nodes));
      hide Choice.Advanced;
      assert from in tree.nodes;
      AdvanceOffers(mem, tree, from, D.WalkLimit(nodes), D.WalkLimit(nodes));
      var group, depth, limit := from, 0, D.WalkLimit(nodes);
      while true
        invariant group == NULL || group in tree.kids
        invariant depth <= limit
        invariant Represents(mem, tree) && Stepped(old(mem), mem, tree)
        invariant D.AdvanceFrom(old(mem), from, limit, limit) == D.AdvanceFrom(mem, group, limit, limit - depth)
        decreases limit + 1 - depth
      {
        depth := depth + 1;
        if group !in mem || depth > limit {
          return NULL;
        }
        ghost var m := mem;
        if Linked(mem, mem[group].head) {
          leaf := ScanRing(group);
          SteppedTrans(old(mem), m, mem, tree);
          if leaf != NULL {
            return;
          }
        }
        assert Holds(mem, tree, group) && NodeOk(tree, group);
        group := mem[group].parent;
      }
    }

    method OutermostExhausted(node: Ptr) returns (found: Ptr)
      ensures found == D.OutermostExhausted(mem, node, NULL, D.WalkLimit(nodes))
      ensures Climbs(mem, tree) && node in tree.nodes && tree.nodes[node].level < D.WalkLimit(nodes) ==>
                IsOutermost(mem, tree, node, NULL, found)
    {
      if Climbs(mem, tree) && node in tree.nodes && tree.nodes[node].level < D.WalkLimit(nodes) {
        OutermostFound(mem, tree, node, NULL, D.WalkLimit(nodes));
      }
      found := NULL;
      var p, depth, limit := node, 0, D.WalkLimit(nodes);
      while p in mem
        invariant depth <= limit
        invariant D.OutermostExhausted(mem, node, NULL, limit) == D.OutermostExhausted(mem, p, found, limit - depth)
        decreases limit + 1 - depth
      {
        depth := depth + 1;
        if depth > limit {
          break;
        }
        if mem[p].remaining == 0 {
          found := p;
        }
        p := mem[p].parent;
      }
    }

    /** Move each parent's cursor past every spent node strictly below z. */
    method RetireSpent(cur: Ptr, z: Ptr)
      requires Represents(mem, tree) && cur in tree.nodes && Above(tree, z, cur)
      modifies `mem
      ensures mem == D.RetireSpent(old(mem), cur, z, D.WalkLimit(nodes) + 1)
      ensures Represents(mem, tree) && Stepped(old(mem), mem, tree)
      ensures tree.depth <= D.WalkLimit(nodes) ==> Choice.Retired(old(mem), mem, tree, cur, z)
    {
      RetiresExactly(mem, tree, cur, z, D.WalkLimit(nodes));
      hide Choice.Retired;
      var n, guard, limit := cur, 0, D.WalkLimit(nodes);
      while n in mem && n != z && guard <= limit
        invariant n in tree.nodes && Above(tree, z, n)
        invariant guard <= limit + 1
        invariant Represents(mem, tree) && Stepped(old(mem), mem, tree)
        invariant D.RetireSpent(old(mem), cur, z, limit + 1) == D.RetireSpent(mem, n, z, limit + 1 - guard)
        decreases limit + 1 - guard
      {
        guard := guard + 1;
        assert Holds(mem, tree, n) && Holds(mem, tree, ParentOf(tree, n));
        ghost var m := mem;
        if mem[n].remaining == 0 {
          var parent := mem[n].parent;
          if parent in mem {
            var next := NextRunnable(n);
            NextRunnableIsFirst(mem, tree, n);
            if next in mem && mem[next].parent == parent {
              CursorSteps(mem, tree, parent, next);
              mem := mem[parent := mem[parent].(cursor := next)];
              StepOn(old(mem), m, mem, tree);
            }
          }
        }
        assert mem == D.RetireOne(m, n);
        n := mem[n].parent;
      }
    }

    static lemma RetiresExactly(m: Mem, t: Tree, cur: Ptr, z: Ptr, limit: nat)
      requires Represents(m, t) && cur in t.nodes && Above(t, z, cur)
      ensures t.depth <= limit ==> Choice.Retired(m, D.RetireSpent(m, cur, z, limit + 1), t, cur, z)
    {
      hide Choice.Retired;
      assert NodeOk(t, cur);
      AboveLevel(t, z, cur);
      if t.depth <= limit {
        Choice.RetireExact(m, t, cur, z, limit + 1);
      }
    }

    method PickNextLeaf(cur: Ptr) returns (leaf: Ptr)
      requires Represents(mem, tree) && root == tree.root && tree.depth <= D.WalkLimit(nodes)
      requires cur == NULL || IsLeaf(tree, cur)
      modifies `mem
      ensures (mem, leaf) == D.PickNextLeaf(old(mem), root, cur, D.WalkLimit(nodes))
      ensures exists s :: Choice.Decided(old(mem), mem, tree, cur, leaf, s)
    {
      hide Choice.Decided, Choice.Retired;
      ghost var s := Choice.PickNames(mem, tree, cur, D.WalkLimit(nodes));
      hide Stepped, D.DescendAndArm, D.AdvanceFrom, D.OutermostExhausted, D.RetireSpent, D.ResumeChild;
      if root !in mem {
        return NULL;
      }
      assert NodeOk(tree, root) && Holds(mem, tree, root);
      if cur !in mem {
        ResumeIsFair(mem, tree, root);
        var child := ResumeChild(root);
        leaf := DescendAndArm(child);
        if leaf != NULL {
          return;
        }
        leaf := AdvanceFrom(root);
        return;
      }
      var z := OutermostExhausted(cur);
      if z == NULL {
        if Runnable(mem, cur) {
          return cur;
        }
        leaf := AdvanceFrom(root);
        return;
      }
      RepresentsClimbs(mem, tree);
      assert NodeOk(tree, cur);
      OutermostFound(mem, tree, cur, NULL, D.WalkLimit(nodes));
      AboveLevel(tree, z, cur);
      RetireSpent(cur, z);
      assert Holds(mem, tree, z) && NodeOk(tree, z);
      var parent := mem[z].parent;
      if z == root || parent !in mem {
        leaf := AdvanceFrom(root);
        return;
      }
      leaf := AdvanceFrom(parent);
    }

    method ScheduleNext() returns (next: Ptr)
      requires Intact()
      modifies this
      ensures (View(), next) == D.ScheduleNext(old(View()))
      ensures Intact() && tree == old(tree) && dead == old(dead)
      ensures next != NULL ==> current == next && IsLeaf(tree, next) && Linked(mem, next) && Runnable(mem, next)
      ensures next != NULL ==> forall x | Above(tree, x, next) && x != tree.root :: Budgeted(mem, tree, x)
      ensures next != NULL && old(Remaining(mem, tree.root)) > 0 ==> Budgeted(mem, tree, tree.root)
      ensures exists m, s :: Handover.Switched(old(View()), View(), tree, next, m, s)
    {
      hide WellFormed, Budgeted, Represents, Handover.Switched, Choice.Decided, D.PickNextLeaf;
      ghost var _, _ := Handover.SwitchNames(View(), tree, dead);
      ScheduleIsSound(View(), tree, dead);
      TreeStands(View(), tree, dead);
      var cur := current;
      if cur in mem && !Linked(mem, cur) {
        cur := NULL;
        current := NULL;
      }
      next := PickNextLeaf(cur);
      if !Linked(mem, next) {
        return NULL;
      }
      if next != cur {
        if cur in mem && mem[cur].state.Running? {
          mem := mem[cur := mem[cur].(state := Ready)];
        }
        mem := mem[next := mem[next].(state := Running)];
        current := next;
        switches := switches + 1;
      }
    }

    // ----- scheduler.rs: the tick

    method DrainCurrentPath()
      modifies `mem
      ensures mem == D.DrainPath(old(mem), current, D.WalkLimit(nodes))
      ensures Climbs(old(mem), tree) && current in tree.nodes && tree.nodes[current].level < D.WalkLimit(nodes) ==>
                forall x | x in old(mem) ::
                  x in mem && mem[x] == if Above(tree, x, current) then Spent(old(mem)[x]) else old(mem)[x]
    {
      if Climbs(mem, tree) && current in tree.nodes && tree.nodes[current].level < D.WalkLimit(nodes) {
        DrainSpendsPath(mem, tree, current, D.WalkLimit(nodes));
      }
      var n, depth, limit := current, 0, D.WalkLimit(nodes);
      while n in mem
        invariant depth <= limit
        invariant D.DrainPath(old(mem), current, limit) == D.DrainPath(mem, n, limit - depth)
        decreases limit + 1 - depth
      {
        depth := depth + 1;
        if depth > limit {
          break;
        }
        mem := mem[n := mem[n].(remaining := if mem[n].remaining == 0 then 0 else mem[n].remaining - 1)];
        n := mem[n].parent;
      }
    }

    /** The bounded walk; nothing is asked of the structure it walks. */
    method WalkTree(first: Ptr, f: Callback) returns (found: bool)
      requires LeavesLinks(f)
      modifies `mem
      ensures (mem, found) == Through(old(mem), W.WalkTree(old(mem), first, D.WalkLimit(nodes)), f, false)
    {
      found := false;
      if !Linked(mem, first) {
        return;
      }
      hide Through, W.Visit, W.Aside, SameLinksAs, LeavesLinks;
      var owner, limit, steps, p := mem[first].parent, D.WalkLimit(nodes), 0, first;
      ghost var m, goal := mem, Through(mem, W.WalkTree(mem, first, limit), f, false);
      LinksStart(m);
      while true
        invariant steps <= limit && p in mem && SameLinksAs(m, mem)
        invariant goal == Through(mem, W.Visit(m, owner, p, limit - steps), f, found)
        decreases limit + 1 - steps
      {
        steps := steps + 1;
        if steps > limit {
          VisitNobody(m, owner, p);
          ThroughNobody(mem, f, found);
          return;
        }
        VisitStep(m, mem, owner, p, limit - steps, f, found);
        LinksStay(m, mem, p, f, found);
        var (c, found') := f(mem[p], found);
        mem, found := mem[p := c], found';
        if mem[p].kind.Group? && Linked(mem, mem[p].head) {
          p := mem[p].head;
          continue;
        }
        ghost var here := mem;
        while true
          invariant steps <= limit && p in mem && mem == here
          invariant goal == Through(here, W.Aside(m, owner, p, limit - steps), f, found)
          decreases limit + 1 - steps
        {
          AsideStep(m, mem, owner, p, limit - steps);
          ThroughNobody(mem, f, found);
          steps := steps + 1;
          if steps > limit {
            return;
          }
          var parent := mem[p].parent;
          if parent !in mem {
            return;
          }
          var entry, next := mem[parent].head, mem[p].next;
          if Linked(mem, next) && next != entry {
            p := next;
            break;
          }
          if parent == owner {
            return;
          }
          p := parent;
        }
      }
    }

    static lemma LinksStart(m: Mem)
      ensures SameLinksAs(m, m)
    {
    }

    static lemma LinksStay(m: Mem, m': Mem, p: Ptr, f: Callback, found: bool)
      requires SameLinksAs(m, m') && p in m' && LeavesLinks(f)
      ensures SameLinksAs(m, m'[p := f(m'[p], found).0])
      ensures SameShape(m'[p], f(m'[p], found).0)
    {
    }

    static lemma VisitNobody(m: Mem, owner: Ptr, p: Ptr)
      ensures W.Visit(m, owner, p, 0) == []
    {
    }

    static lemma ThroughNobody(m: Mem, f: Callback, found: bool)
      ensures Through(m, [], f, found) == (m, found)
    {
    }

    /** The walk is at p with budget steps left after this one. */
    static lemma VisitStep(m: Mem, m': Mem, owner: Ptr, p: Ptr, budget: nat, f: Callback, found: bool)
      requires SameLinksAs(m, m') && p in m'
      ensures var (c, found') := f(m'[p], found);
              var rest := if m'[p].kind.Group? && Linked(m', m'[p].head)
                          then W.Visit(m, owner, m'[p].head, budget) else W.Aside(m, owner, p, budget);
              Through(m', W.Visit(m, owner, p, budget + 1), f, found) == Through(m'[p := c], rest, f, found')
    {
      hide Through;
      var rest := if m'[p].kind.Group? && Linked(m', m'[p].head)
                  then W.Visit(m, owner, m'[p].head, budget) else W.Aside(m, owner, p, budget);
      assert W.Visit(m, owner, p, budget + 1) == [p] + rest;
      ThroughStep(m', p, rest, f, found);
    }

    static lemma AsideStep(m: Mem, m': Mem, owner: Ptr, p: Ptr, budget: nat)
      requires SameLinksAs(m, m') && p in m'
      ensures W.Aside(m, owner, p, budget) ==
                if budget == 0 || m'[p].parent !in m' then []
                else if Linked(m', m'[p].next) && m'[p].next != m'[m'[p].parent].head
                then W.Visit(m, owner, m'[p].next, budget - 1)
                else if m'[p].parent == owner then []
                else W.Aside(m, owner, m'[p].parent, budget - 1)
    {
    }

    static ghost predicate SameLinksAs(m: Mem, m': Mem) {
      m'.Keys == m.Keys && forall x {:trigger m'[x]} {:trigger m[x]} | x in m :: SameShape(m[x], m'[x])
    }

    method WakeExpired()
      requires NULL !in mem
      modifies `mem
      ensures View() == W.WakeExpired(old(View()))
      ensures root in old(mem) ==> Waking.Expiring(old(mem), mem, old(W.Visited(View())), ticks)
    {
      hide Waking.Expiring;
      if root !in mem {
        return;
      }
      var now := ticks;
      Waking.ExpiryExact(View());
      PlainIsSweep(mem, W.Visited(View()), W.ExpireOne(now), false);
      var _ := WalkTree(mem[root].head, Plain(W.ExpireOne(now)));
    }

    method OnTick()
      requires Intact()
      modifies `mem, `ticks
      ensures View() == W.OnTick(old(View()))
      ensures Intact() && ticks == old(ticks) + 1
      ensures Covered(tree, D.WalkLimit(nodes)) ==> forall x | x in mem :: !W.Expired(mem[x], ticks)
      ensures Waking.Ticked(old(mem), mem, tree, current, old(W.Visited(View())), ticks)
    {
      hide Waking.Ticked;
      Waking.TickExact(View(), tree, dead);
      NobodyIsLateAnywhere(View(), tree, dead);
      OnTickWellFormed(View(), tree, dead);
      ghost var m := mem;
      ticks := ticks + 1;
      DrainCurrentPath();
      assert NULL !in mem by { DrainKept(m, tree, current, D.WalkLimit(nodes)); }
      WakeExpired();
    }

    static lemma NobodyIsLateAnywhere(k: State, t: Tree, dead: seq<Ptr>)
      requires WellFormed(k, t, dead)
      ensures Covered(t, D.WalkLimit(k.nodes)) ==>
                forall x | x in W.OnTick(k).mem :: !W.Expired(W.OnTick(k).mem[x], W.OnTick(k).ticks)
    {
      hide WellFormed, W.OnTick, Covered, W.Expired;
      if Covered(t, D.WalkLimit(k.nodes)) {
        assert W.OnTick(k).mem.Keys == k.mem.Keys by { TickKeys(k, t, dead); }
        forall x | x in W.OnTick(k).mem ensures !W.Expired(W.OnTick(k).mem[x], W.OnTick(k).ticks) {
          Deadlines.NobodyIsLate(k, t, dead, x);
        }
      }
    }

    static lemma TickKeys(k: State, t: Tree, dead: seq<Ptr>)
      requires WellFormed(k, t, dead)
      ensures W.OnTick(k).mem.Keys == k.mem.Keys
    {
      hide W.Visited, D.DrainPath, W.Sweep;
      Deadlines.MidwayKeys(k, t, dead);
      CallbacksRouse(k.ticks + 1, 0, 0);
      SweepRouses(Deadlines.SweepState(k).mem, W.Visited(Deadlines.SweepState(k)), W.ExpireOne(k.ticks + 1));
    }

    // ----- scheduler.rs: waking

    method WakeTask(id: nat)
      requires Intact()
      modifies `mem
      ensures View() == W.WakeTask(old(View()), id)
      ensures Intact()
      ensures if id == 0 then mem == old(mem) else Waking.Called(old(mem), mem, old(W.Visited(View())), id)
    {
      hide WellFormed, Waking.Called;
      TreeStands(View(), tree, dead);
      WakesWellFormed(View(), tree, dead, id, 0);
      CallbacksRouse(0, id, 0);
      if id == 0 || root !in mem {
        return;
      }
      Waking.CallExact(View(), id);
      PlainIsSweep(mem, W.Visited(View()), W.WakeOne(id), false);
      var _ := WalkTree(mem[root].head, Plain(W.WakeOne(id)));
    }

    method WakeBlockedOn(resource: nat)
      requires Intact()
      modifies `mem
      ensures View() == W.WakeBlockedOn(old(View()), resource)
      ensures Intact()
      ensures Waking.Released(old(mem), mem, old(W.Visited(View())), resource)
      ensures Covered(tree, D.WalkLimit(nodes)) ==>
                forall x | x in mem :: !(mem[x].state.Blocked? && mem[x].blockedOn == resource)
    {
      hide WellFormed, Waking.Released, Covered;
      TreeStands(View(), tree, dead);
      WakesWellFormed(View(), tree, dead, 0, resource);
      CallbacksRouse(0, 0, resource);
      Waking.ReleaseExact(View(), resource);
      NobodyIsLeft(View(), tree, dead, resource);
      if root !in mem {
        return;
      }
      PlainIsSweep(mem, W.Visited(View()), W.ReleaseOne(resource), false);
      var _ := WalkTree(mem[root].head, Plain(W.ReleaseOne(resource)));
    }

    static lemma NobodyIsLeft(k: State, t: Tree, dead: seq<Ptr>, resource: nat)
      requires WellFormed(k, t, dead)
      ensures Valid(t)
      ensures var m := W.WakeBlockedOn(k, resource).mem;
              Covered(t, D.WalkLimit(k.nodes)) ==>
                forall x | x in m :: !(m[x].state.Blocked? && m[x].blockedOn == resource)
    {
      hide WellFormed, Covered, W.WakeBlockedOn;
      TreeIsValid(k, t, dead);
      TreeStands(k, t, dead);
      Waking.ReleaseExact(k, resource);
      if Covered(t, D.WalkLimit(k.nodes)) {
        forall x | x in k.mem {
          Waking.ReleaseLeavesNobody(k, t, dead, resource, x);
        }
      }
    }

    method WakeFirstBlockedOn(resource: nat) returns (found: bool)
      requires Intact()
      modifies `mem
      ensures (View(), found) == W.WakeFirstBlockedOn(old(View()), resource)
      ensures Intact()
      ensures Waking.HandedOff(old(mem), mem, old(W.Visited(View())), resource, found)
    {
      hide WellFormed, Waking.HandedOff;
      TreeStands(View(), tree, dead);
      WakesWellFormed(View(), tree, dead, 0, resource);
      if root !in mem {
        return false;
      }
      Waking.HandOffExact(View(), resource);
      HandOneIsFirst(mem, W.Visited(View()), resource);
      found := WalkTree(mem[root].head, HandOne(resource));
    }

    // ----- scheduler.rs: blocking

    method MarkBlocked(resource: nat, deadline: nat) returns (outcome: B.BlockOutcome)
      requires Intact()
      modifies `mem, `blocksWithoutCurrent
      ensures (View(), outcome) == B.MarkBlocked(old(View()), resource, deadline)
      ensures Intact()
      ensures B.BlockEffect(old(View()), resource, deadline, View(), outcome)
    {
      BlockWellFormed(View(), tree, dead, resource, deadline);
      var me := current;
      if me !in mem {
        blocksWithoutCurrent := blocksWithoutCurrent + 1;
        return B.NoCurrentTask;
      }
      if deadline != 0 && ticks >= deadline {
        return B.AlreadyPast;
      }
      mem := mem[me := mem[me].(blockedOn := resource, deadline := deadline)];
      mem := mem[me := mem[me].(state := Blocked)];
      assert mem == B.MarkBlocked(old(View()), resource, deadline).0.mem;
      outcome := B.BlockedNow;
    }

    method BlockUnless(resource: nat, deadline: nat, ready: bool) returns (outcome: B.BlockOutcome)
      requires Intact()
      modifies `mem, `blocksWithoutCurrent
      ensures (View(), outcome) == B.BlockUnless(old(View()), resource, deadline, ready)
      ensures Intact()
      ensures if ready then outcome == B.ReadyNow && View() == old(View())
              else B.BlockEffect(old(View()), resource, deadline, View(), outcome)
    {
      if ready {
        return B.ReadyNow;
      }
      outcome := MarkBlocked(resource, deadline);
    }

    /** No block but the current task's is written. */
    static ghost predicate OnlyCurrent(m: Mem, m': Mem, current: Ptr) {
      m'.Keys == m.Keys && forall x {:trigger m'[x]} | x in m && x != current :: m'[x] == m[x]
    }

    method TakeWakeFlag() returns (woken: bool)
      requires Intact()
      modifies `mem
      ensures (View(), woken) == B.TakeWakeFlag(old(View()))
      ensures Intact()
      ensures woken <==> current in old(mem) && old(mem)[current].woken
      ensures OnlyCurrent(old(mem), mem, current)
      ensures current in mem ==> mem[current] == old(mem)[current].(woken := false)
    {
      WakeFlagWellFormed(View(), tree, dead);
      var me := current;
      if me !in mem {
        return false;
      }
      woken := mem[me].woken;
      mem := mem[me := mem[me].(woken := false)];
    }

    method ClearTimerDeadline()
      requires Intact()
      modifies `mem
      ensures View() == B.ClearTimerDeadline(old(View()))
      ensures Intact()
      ensures OnlyCurrent(old(mem), mem, current)
      ensures current in mem ==> mem[current] == old(mem)[current].(deadline := 0)
    {
      ClearTimerWellFormed(View(), tree, dead);
      if current in mem {
        mem := mem[current := mem[current].(deadline := 0)];
      }
    }

    method SetTimerDeadline(deadline: nat)
      requires Intact()
      modifies `mem
      ensures View() == B.SetTimerDeadline(old(View()), deadline)
      ensures Intact()
      ensures OnlyCurrent(old(mem), mem, current)
      ensures current in mem ==> mem[current] == old(mem)[current].(deadline := mem[current].deadline)
      ensures current in mem ==>
                var was, now := old(mem)[current].deadline, mem[current].deadline;
                && (now == was || now == deadline)
                && (now == 0 <==> was == 0 && deadline == 0)
                && (was != 0 ==> now <= was) && (deadline != 0 ==> now <= deadline)
    {
      SetTimerWellFormed(View(), tree, dead, deadline);
      if deadline == 0 {
        return;
      }
      if current in mem {
        var armed := mem[current].deadline;
        if armed == 0 || deadline < armed {
          mem := mem[current := mem[current].(deadline := deadline)];
        }
      }
    }

    // ----- ring.rs and scheduler.rs: birth

    /** The node joins its anchor's ring directly behind the anchor, or is a ring of its own. */
    method InsertAfter(anchor: Ptr, node: Ptr)
      requires node in mem && (anchor in mem ==> mem[anchor].next in mem)
      modifies `mem
      ensures mem == L.InsertAfter(old(mem), anchor, node)
      ensures anchor !in old(mem) && node != NULL ==> C.Circular(mem, [node])
      ensures C.JoinedBehind(old(mem), mem, anchor, node)
      ensures anchor in old(mem) && anchor != node && old(mem[anchor].next) != node ==>
                forall y | y in old(mem) :: mem[y] == C.Wedged(old(mem), anchor, node, y)
    {
      C.InsertIsExact(mem, anchor, node);
      if anchor !in mem {
        mem := mem[node := mem[node].(next := node)];
        mem := mem[node := mem[node].(prev := node)];
        return;
      }
      var after := mem[anchor].next;
      mem := mem[node := mem[node].(prev := anchor)];
      mem := mem[node := mem[node].(next := after)];
      mem := mem[anchor := mem[anchor].(next := node)];
      mem := mem[after := mem[after].(prev := node)];
    }

    method InsertChild(parent: Ptr, node: Ptr)
      requires parent in mem && node in mem && NULL !in mem
      requires var anchor := L.Anchor(mem, parent); Linked(mem, anchor) ==> mem[anchor].next in mem
      modifies `mem, `ringHead
      ensures View() == L.InsertChild(old(View()), parent, node)
      ensures Grows(old(mem), mem, tree, parent, node)
    {
      hide L.InsertAfter, Grows, C.JoinedBehind, C.Circular, C.Wedged;
      InsertGrows(View(), tree, parent, node);
      var cur := mem[parent].cursor;
      var anchor := if Linked(mem, cur) && mem[cur].parent == parent then cur else mem[parent].head;
      if Linked(mem, anchor) {
        InsertKeys(mem, anchor, node);
        InsertAfter(anchor, node);
      } else {
        InsertKeys(mem, NULL, node);
        InsertAfter(NULL, node);
      }
      if mem[parent].head == NULL {
        mem := mem[parent := mem[parent].(head := node)];
      }
      if mem[parent].cursor == NULL {
        mem := mem[parent := mem[parent].(cursor := node)];
      }
      if parent == root {
        ringHead := node;
      }
    }

    /** Memory that held a tree beside a newcomer now holds the tree with the newcomer in it. */
    static ghost predicate Grows(m: Mem, m': Mem, t: Tree, parent: Ptr, node: Ptr) {
      forall slice: nat, group | Growth.Spawning(m, t, parent, node, slice, group) ::
        Represents(m', Growth.NewTree(m, t, parent, node, slice, group))
    }

    static lemma InsertGrows(k: State, t: Tree, parent: Ptr, node: Ptr)
      requires NULL !in k.mem
      ensures Grows(k.mem, L.InsertChild(k, parent, node).mem, t, parent, node)
    {
      hide Represents, Growth.Spawning, Growth.NewTree, L.InsertChild;
      forall slice: nat, group | Growth.Spawning(k.mem, t, parent, node, slice, group)
        ensures Represents(L.InsertChild(k, parent, node).mem, Growth.NewTree(k.mem, t, parent, node, slice, group))
      {
        Growth.InsertRepresents(k, t, parent, node, slice, group);
      }
    }

    static lemma InsertKeys(m: Mem, anchor: Ptr, node: Ptr)
      requires node in m && (anchor in m ==> m[anchor].next in m)
      ensures L.InsertAfter(m, anchor, node).Keys == m.Keys
    {
    }

    /** alloc_tcb, take_id and the field stores both kinds of spawn begin with. */
    method NewTcb(slot: Ptr, kind: Kind, parent: Ptr, quantum: nat)
      modifies `mem, `nodes, `nextId
      ensures View() == WithTcb(old(View()), kind, parent, quantum, slot)
    {
      mem := mem[slot := L.ZeroTcb()];
      nodes := nodes + 1;
      mem := mem[slot := mem[slot].(id := nextId, state := Ready, kind := kind, parent := parent)];
      nextId := nextId + 1;
      mem := mem[slot := mem[slot].(slice := if quantum < 1 then 1 else quantum)];
      mem := mem[slot := mem[slot].(remaining := mem[slot].slice)];
    }

    method Join(slot: Ptr, kind: Kind, parent: Ptr, quantum: nat)
      requires var m := WithTcb(View(), kind, parent, quantum, slot).mem;
               && parent in m && slot in m && NULL !in m
               && (Linked(m, L.Anchor(m, parent)) ==> m[L.Anchor(m, parent)].next in m)
      modifies `mem, `nodes, `nextId, `ringHead
      ensures View() == L.InsertChild(WithTcb(old(View()), kind, parent, quantum, slot), parent, slot)
    {
      hide L.InsertChild, L.Anchor, Grows;
      NewTcb(slot, kind, parent, quantum);
      InsertChild(parent, slot);
    }

    static lemma AnchorIsReady(k: State, t: Tree, dead: seq<Ptr>, kind: Kind, g: Ptr, quantum: nat, slot: Ptr)
      requires WellFormed(k, t, dead) && g in t.kids && slot != NULL && slot !in k.mem
      ensures var m := WithTcb(k, kind, g, quantum, slot).mem;
              g in m && slot in m && NULL !in m
              && (Linked(m, L.Anchor(m, g)) ==> m[L.Anchor(m, g)].next in m)
    {
      var m := k.mem;
      assert NodeOk(t, t.root) && Holds(m, t, g);
      if |t.kids[g]| > 0 {
        assert KidOk(t, g, 0);
        KidIsNotRoot(t, g, m[g].cursor);
        NextInMemory(m, t, m[g].cursor);
        NextInMemory(m, t, t.kids[g][0]);
      }
    }

    /** The newcomer is parent's child, directly behind its cursor; nobody else moved out of
        the tree or to another parent. */
    static ghost predicate Joined(k: State, t: Tree, t': Tree, parent: Ptr, node: Ptr) {
      && Valid(t') && t'.nodes.Keys == t.nodes.Keys + {node} && node !in t.nodes
      && IsKid(t', parent, node)
      && (forall x | x in t.nodes :: t'.nodes[x].parent == t.nodes[x].parent)
      && (Cursor(k.mem, parent) != NULL ==>
            var cur := Cursor(k.mem, parent);
            cur in t'.nodes && cur != t'.root && After(t', cur) == node)
    }

    static lemma NewcomerJoins(k: State, t: Tree, dead: seq<Ptr>, kind: Kind, g: Ptr, quantum: nat, slot: Ptr)
      requires WellFormed(k, t, dead) && g in t.kids && slot != NULL && slot !in k.mem
      ensures var t' := SpawnTree(k, t, dead, kind, g, quantum, slot);
              Joined(k, t, t', g, slot) && slot in t'.nodes && (slot in t'.kids <==> kind.Group?)
    {
      hide Growth.NewTree, WellFormed;
      var k1, slice := WithTcb(k, kind, g, quantum, slot), L.AtLeastOne(quantum);
      SpawnSetsUp(k, t, dead, kind, g, quantum, slot);
      TreeStands(k, t, dead);
      SlotIsNew(k, t, dead, slot);
      GroupsAreNodes(k, t, dead);
      Growth.InsertedNodes(k1.mem, t, g, slot, slice, kind.Group?);
      assert Valid(SpawnTree(k, t, dead, kind, g, quantum, slot)) by {
        SpawnWellFormed(k, t, dead, kind, g, quantum, slot);
        TreeStands(L.InsertChild(k1, g, slot).(total := k.total + (if kind.Leaf? then 1 else 0),
                                                active := k.active + (if kind.Leaf? then 1 else 0)),
                   SpawnTree(k, t, dead, kind, g, quantum, slot), dead);
      }
      assert Holds(k.mem, t, g) && NodeOk(t, t.root);
      if |t.kids[g]| > 0 {
        KidIsNotRoot(t, g, Cursor(k.mem, g));
        Growth.GrownNeighbours(k1.mem, t, g, slot, slice, kind.Group?, Cursor(k.mem, g));
      }
    }

    static lemma SpawnReady(k: State, t: Tree, dead: seq<Ptr>, kind: Kind, parent: Ptr, quantum: nat, supply: L.Supply)
      requires WellFormed(k, t, dead) && IsGroup(k.mem, parent) && Supplies(k, supply)
      ensures supply.Granted? ==>
                && supply.slot != NULL && supply.slot !in k.mem && parent in t.kids
                && var k1, born := WithTcb(k, kind, parent, quantum, supply.slot), if kind.Leaf? then 1 else 0;
                   var k2 := L.InsertChild(k1, parent, supply.slot);
                   && k2.total == k.total && k2.active == k.active
                   && Births.Born(k, k2.(total := k.total + born, active := k.active + born), t,
                                  SpawnTree(k, t, dead, kind, parent, quantum, supply.slot), kind, parent, quantum, supply.slot)
    {
      hide WellFormed, L.InsertChild, SpawnTree, Births.Born;
      if supply.Granted? {
        GroupsAreInTree(k, t, dead, parent);
        Births.SpawnIsBorn(k, t, dead, kind, parent, quantum, supply.slot);
        InsertChildBooks(WithTcb(k, kind, parent, quantum, supply.slot), parent, supply.slot);
      }
    }

    method SpawnGroup(parent: Ptr, quantum: nat, supply: L.Supply) returns (node: Ptr)
      requires Intact() && Allowed(View(), SpawnGroupStep(parent, quantum, supply))
      modifies this
      ensures (View(), node) == L.SpawnGroup(old(View()), parent, quantum, supply)
      ensures Intact()
      ensures node != NULL ==> Joined(old(View()), old(tree), tree, parent, node) && node in tree.kids
      ensures if supply.Granted? then node == supply.slot && Births.Born(old(View()), View(), old(tree), tree, Group, parent, quantum, node)
              else node == NULL && View() == old(View())
      ensures tree == TreeAfter(old(View()), old(tree), old(dead), SpawnGroupStep(parent, quantum, supply))
    {
      hide WellFormed, L.InsertChild, L.Anchor, SpawnTree, Joined, Births.Born;
      ghost var k := View();
      SpawnReady(k, tree, dead, Group, parent, quantum, supply);
      if parent !in mem || !supply.Granted? {
        return NULL;
      }
      node := supply.slot;
      GroupsAreInTree(k, tree, dead, parent);
      AnchorIsReady(k, tree, dead, Group, parent, quantum, node);
      NewcomerJoins(k, tree, dead, Group, parent, quantum, node);
      SpawnGroupWellFormed(k, tree, dead, parent, quantum, supply);
      Join(node, Group, parent, quantum);
      tree := SpawnTree(k, tree, dead, Group, parent, quantum, node);
    }

    method SpawnLeaf(parent: Ptr, quantum: nat, supply: L.Supply) returns (node: Ptr)
      requires Intact() && Allowed(View(), SpawnStep(parent, quantum, supply))
      modifies this
      ensures (View(), node) == L.SpawnLeaf(old(View()), parent, quantum, supply)
      ensures Intact()
      ensures node != NULL ==> Joined(old(View()), old(tree), tree, parent, node) && IsLeaf(tree, node)
      ensures if supply.Granted? then node == supply.slot && Births.Born(old(View()), View(), old(tree), tree, Leaf, parent, quantum, node)
              else node == NULL && View() == old(View()).(nodes := if supply.NoTcb? then old(nodes) else old(nodes) + 1,
                                                           nextId := if supply.NoBackend? then old(nextId) + 1 else old(nextId))
      ensures tree == TreeAfter(old(View()), old(tree), old(dead), SpawnStep(parent, quantum, supply))
    {
      hide WellFormed, L.InsertChild, L.Anchor, SpawnTree, Joined, Births.Born;
      ghost var k := View();
      SpawnReady(k, tree, dead, Leaf, parent, quantum, supply);
      SpawnLeafWellFormed(k, tree, dead, parent, quantum, supply);
      match supply
      case NoTcb =>
        node := NULL;
      case NoClosure =>
        nodes := nodes + 1;
        node := NULL;
      case NoBackend =>
        nodes := nodes + 1;
        nextId := nextId + 1;
        node := NULL;
      case Granted(slot) =>
        node := slot;
        GroupsAreInTree(k, tree, dead, parent);
        AnchorIsReady(k, tree, dead, Leaf, parent, quantum, node);
        NewcomerJoins(k, tree, dead, Leaf, parent, quantum, node);
        Join(node, Leaf, parent, quantum);
        total := total + 1;
        active := active + 1;
        tree := SpawnTree(k, tree, dead, Leaf, parent, quantum, node);
    }

    // ----- ring.rs and trampoline.rs: death

    /** The node leaves its ring, which closes behind it. */
    method Unlink(node: Ptr) returns (succ: Ptr)
      requires node in mem
      requires mem[node].next != node ==> mem[node].next in mem && mem[node].prev in mem && mem[node].prev != node
      modifies `mem
      ensures (mem, succ) == L.Unlink(old(mem), node)
      ensures C.LeftRing(old(mem), mem, node, succ)
      ensures mem[node].next == NULL && mem[node].prev == NULL
      ensures forall y | y in old(mem) && y != node :: mem[y] == C.Closing(old(mem), node, y)
    {
      C.UnlinkIsExact(mem, node);
      var next, prev := mem[node].next, mem[node].prev;
      if next == node {
        mem := mem[node := mem[node].(next := NULL)];
        mem := mem[node := mem[node].(prev := NULL)];
        return NULL;
      }
      mem := mem[prev := mem[prev].(next := next)];
      mem := mem[next := mem[next].(prev := prev)];
      mem := mem[node := mem[node].(next := NULL)];
      mem := mem[node := mem[node].(prev := NULL)];
      succ := next;
    }

    static lemma ExitLooks(k: State, t: Tree, dead: seq<Ptr>)
      requires WellFormed(k, t, dead) && k.current != NULL
      ensures k.current in k.mem
      ensures L.Unlink(SetState(k.mem, k.current, TaskState.Dead), k.current).0.Keys == k.mem.Keys
      ensures var me, m := k.current, SetState(k.mem, k.current, TaskState.Dead);
              m[me].next != me ==> m[me].next in m && m[me].prev in m && m[me].prev != me
    {
      hide WellFormed, Represents, Holds, Valid;
      var m, me := k.mem, k.current;
      assert Represents(m, t) && IsLeaf(t, me) by { LeafStands(k, t, dead); }
      ExitWellFormed(k, t, dead);
      NeighboursOf(m, t, me);
    }

    static lemma LeafStands(k: State, t: Tree, dead: seq<Ptr>)
      requires WellFormed(k, t, dead) && k.current != NULL
      ensures Represents(k.mem, t) && IsLeaf(t, k.current)
    {
    }

    /** x's neighbours in memory are its neighbours in the tree. */
    static lemma NeighboursOf(m: Mem, t: Tree, me: Ptr)
      requires Represents(m, t) && me in t.nodes && me != t.root
      ensures me in m && m[me].next in m && m[me].prev in m
      ensures m[me].next != me ==> m[me].prev != me
    {
      assert Holds(m, t, me) && Holds(m, t, After(t, me)) && Holds(m, t, Before(t, me));
      assert After(t, Before(t, me)) == me by { BeforeThenAfter(t, me); }
    }

    static lemma BeforeThenAfter(t: Tree, x: Ptr)
      requires Valid(t) && x in t.nodes && x != t.root
      ensures After(t, Before(t, x)) == x
    {
      assert NodeOk(t, x) && NodeOk(t, Before(t, x));
      var g := ParentOf(t, x);
      assert KidOk(t, g, Pred(t.nodes[x].pos, |t.kids[g]|));
    }

    /** A finished task leaves: unlinked, its parent pointed past it, and queued for the
        deferred free. */
    method ExitTask()
      requires Intact() && current != NULL
      modifies this
      ensures View() == L.ExitTask(old(View()))
      ensures Intact()
      ensures dead == [old(current)] + old(dead)
      ensures tree.nodes.Keys == old(tree.nodes.Keys) - {old(current)}
      ensures Exits.Gone(old(View()), View(), old(tree), old(current))
    {
      hide WellFormed, L.ExitTask, Departure.Pruned, Valid, IsLeaf, Exits.Gone;
      ghost var k := View();
      Exits.ExitIsGone(k, tree, dead);
      assert Valid(tree) && IsLeaf(tree, current) by { LeafStands(k, tree, dead); }
      ExitWellFormed(k, tree, dead);
      ExitLooks(k, tree, dead);
      Departure.PrunedNodes(tree, current);
      Leave();
      tree, dead := Departure.Pruned(tree, k.current), [k.current] + dead;
    }

    method Leave()
      requires current in mem && L.Unlink(SetState(mem, current, TaskState.Dead), current).0.Keys == mem.Keys
      requires mem[current].next != current ==>
                 mem[current].next in mem && mem[current].prev in mem && mem[current].prev != current
      modifies `mem, `current, `ringHead, `pending, `active
      ensures View() == L.ExitTask(old(View()))
    {
      hide L.Unlink, L.PastMember, L.SetPrev;
      var me := current;
      mem := mem[me := mem[me].(state := TaskState.Dead)];
      var succ, parent := Detach(me);
      if root !in mem || parent == root {
        ringHead := succ;
      }
      current := NULL;
      active := if active == 0 then 0 else active - 1;
      PushPendingFree(me);
    }

    /** Out of the ring, and out of the parent's sight. */
    method Detach(me: Ptr) returns (succ: Ptr, parent: Ptr)
      requires me in mem && me in L.Unlink(mem, me).0
      requires mem[me].next != me ==> mem[me].next in mem && mem[me].prev in mem && mem[me].prev != me
      modifies `mem
      ensures var (m, s) := L.Unlink(old(mem), me);
              && succ == s && parent == Parent(m, me)
              && mem == if parent in m then m[parent := L.PastMember(m[parent], me, succ)] else m
    {
      hide L.Unlink, L.PastMember;
      succ := Unlink(me);
      parent := mem[me].parent;
      PassBy(parent, me, succ);
    }

    /** Whoever pointed at the leaver now points at its successor. */
    method PassBy(parent: Ptr, me: Ptr, succ: Ptr)
      modifies `mem
      ensures mem == if parent in old(mem) then old(mem)[parent := L.PastMember(old(mem)[parent], me, succ)] else old(mem)
    {
      if parent in mem {
        if mem[parent].head == me {
          mem := mem[parent := mem[parent].(head := succ)];
        }
        if mem[parent].cursor == me {
          mem := mem[parent := mem[parent].(cursor := succ)];
        }
        assert mem == old(mem)[parent := L.PastMember(old(mem)[parent], me, succ)];
      }
    }

    method PushPendingFree(node: Ptr)
      requires node in mem
      modifies `mem, `pending
      ensures mem == L.SetPrev(old(mem), node, old(pending)) && pending == node
    {
      mem := mem[node := mem[node].(prev := pending)];
      pending := node;
    }

    /** Free what is on the deferred-free list, except what the port still needs. */
    method ReclaimFinished(pinned: set<Ptr>)
      requires Intact()
      modifies `mem, `pending, `reclaimed, `dead
      ensures View() == L.ReclaimFinished(old(View()), pinned)
      ensures Intact() && dead == Requeued(old(dead), pinned, [])
      ensures Exits.Freed(old(View()), View(), tree, old(dead), pinned, dead)
    {
      hide Exits.Freed, WellFormed, Requeued, L.ReclaimFinished;
      Exits.ReclaimIsExact(View(), tree, dead, pinned);
      DrainPending(pinned);
    }

    method DrainPending(pinned: set<Ptr>)
      requires Intact()
      modifies `mem, `pending, `reclaimed, `dead
      ensures View() == L.ReclaimFinished(old(View()), pinned)
      ensures Intact() && dead == Requeued(old(dead), pinned, [])
    {
      hide Draining, WellFormed, L.SetPrev, Requeued;
      ghost var k, t := View(), tree;
      ReclaimWellFormed(k, t, dead, pinned);
      var node := pending;
      pending := NULL;
      ghost var rest, kept, budget := dead, [], |mem|;
      ReclaimBegins(k, t, dead);
      while node in mem
        invariant tree == t && dead == old(dead) && Draining(View(), t, node, rest, kept) && |rest| <= budget
        invariant L.Drain(k.(pending := NULL), k.pending, pinned, |k.mem|) == L.Drain(View(), node, pinned, budget)
        decreases |rest|
      {
        OneDrained(View(), t, node, rest, kept);
        var next := mem[node].prev;
        if node in pinned {
          PushPendingFree(node);
          kept := [node] + kept;
        } else {
          mem := mem - {node};
          reclaimed := reclaimed + 1;
        }
        node := next;
        rest, budget := rest[1..], budget - 1;
      }
      dead := Requeued(dead, pinned, []);
    }

    static lemma ReclaimBegins(k: State, t: Tree, dead: seq<Ptr>)
      requires WellFormed(k, t, dead)
      ensures Draining(k.(pending := NULL), t, k.pending, dead, []) && |dead| <= |k.mem|
    {
      forall i | 0 <= i < |dead| ensures dead[i] in k.mem {
        assert Buried(k.mem, t, dead[i]);
      }
      DistinctFits(dead, k.mem);
    }

    static lemma OneDrained(k: State, t: Tree, node: Ptr, rest: seq<Ptr>, kept: seq<Ptr>)
      requires Draining(k, t, node, rest, kept) && node in k.mem
      ensures rest != []
      ensures Draining(k.(mem := L.SetPrev(k.mem, node, k.pending), pending := node), t,
                       k.mem[node].prev, rest[1..], [node] + kept)
      ensures Draining(k.(mem := Without(k.mem, node), reclaimed := k.reclaimed + 1), t,
                       k.mem[node].prev, rest[1..], kept)
    {
      RequeueStep(k, t, node, rest, kept);
      FreeStep(k, t, node, rest, kept);
    }

    // ----- scheduler.rs: init_with

    constructor (root: Ptr, task0: Ptr)
      requires root != NULL && task0 != NULL && root != task0
      ensures View() == Init(root, task0)
      ensures Intact() && tree == InitTree(root, task0) && dead == []
      ensures mem == map[root := Tcb(Group, Ready, false, NULL, NULL, 0, U32_MAX, U32_MAX, 0, 0, NULL, task0, task0),
                         task0 := Tcb(Leaf, Running, false, task0, task0, 1, 1, 1, 0, 0, root, NULL, NULL)]
      ensures this.root == root && current == ringHead == task0 && pending == NULL && nodes == nextId == 2
      ensures ticks == switches == reclaimed == blocksWithoutCurrent == 0 && total == active == 1
    {
      var group := L.ZeroTcb().(kind := Group, slice := U32_MAX, remaining := U32_MAX);
      var main := L.ZeroTcb().(state := Running, id := 1, parent := root, slice := 1, remaining := 1,
                               next := task0, prev := task0);
      mem := map[root := group.(head := task0, cursor := task0), task0 := main];
      this.root, current, ringHead, pending := root, task0, task0, NULL;
      ticks, switches, nodes, total, active, reclaimed, nextId, blocksWithoutCurrent := 0, 0, 2, 1, 1, 0, 2, 0;
      tree, dead := InitTree(root, task0), [];
      new;
      InitWellFormed(root, task0);
    }

    static lemma TreeStands(k: State, t: Tree, dead: seq<Ptr>)
      requires WellFormed(k, t, dead)
      ensures Represents(k.mem, t) && k.root == t.root && t.depth <= k.nodes && (k.current == NULL || IsLeaf(t, k.current))
      ensures NULL !in k.mem && t.root in k.mem
    {
      assert Holds(k.mem, t, t.root);
    }

    static lemma DescentBegins(m: Mem, t: Tree)
      requires Represents(m, t)
      ensures Stepped(m, m, t) && Valid(t)
    {
    }

    static lemma DescentOffers(m: Mem, t: Tree, start: Ptr, limit: nat)
      requires Represents(m, t) && (start == NULL || start in t.nodes)
      ensures var (m', leaf) := D.DescendAndArm(m, start, limit);
              leaf != NULL ==> Offered(m', t, start, leaf)
    {
      if start == NULL {
        NullOffersNothing(m, start, limit);
      } else {
        DescendOffers(m, t, start, limit);
      }
    }

    static lemma StepOn(m0: Mem, m: Mem, m': Mem, t: Tree)
      requires Represents(m, t) && Stepped(m0, m, t) && Stepped(m, m', t)
      ensures Represents(m', t) && Stepped(m0, m', t)
    {
      SteppedHolds(m, m', t);
      SteppedTrans(m0, m, m', t);
    }
  }
}
