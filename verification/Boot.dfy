/**
  Where fresh runs come from: whatever is spawned between init and the first tick, as soon
  as no group is left empty the kernel stands at tick zero of its closed form.
 */
module Boot {
  import opened RoundRobin
  import opened Tree
  import opened Memory
  import opened Dispatch
  import opened Lifecycle
  import opened Growth
  import opened Timeline
  import opened Windows
  import opened Invariant
  import opened Books
  import opened Runs
  import Waiting

  /** Nothing has run yet but task 0, which heads the top-level ring. */
  ghost predicate Unstarted(k: State, t: Tree, dead: seq<Ptr>) {
    && WellFormed(k, t, dead)
    && (forall x {:trigger Block(k, x)} | x in k.mem ::
          Block(k, x).remaining == Block(k, x).slice && !NotRunnable(Block(k, x).state))
    && (forall g {:trigger FirstInLine(k.mem, t, g)} | g in t.kids :: FirstInLine(k.mem, t, g))
    && t.root in t.nodes && t.nodes[t.root].slice == U32_MAX
    && |t.kids[t.root]| > 0 && t.kids[t.root][0] == k.current && IsLeaf(t, k.current)
  }

  ghost function Block(k: State, x: Ptr): Tcb
    requires x in k.mem
  {
    k.mem[x]
  }

  ghost predicate FirstInLine(m: Mem, t: Tree, g: Ptr) {
    g in t.kids && |t.kids[g]| > 0 ==> Cursor(m, g) == t.kids[g][0]
  }

  lemma InitUnstarted(r: Ptr, a: Ptr)
    requires r != NULL && a != NULL && r != a
    ensures Unstarted(Init(r, a), InitTree(r, a), [])
  {
    InitWellFormed(r, a);
  }

  /** The newcomer's ring keeps its first child. */
  lemma GrownRings(m: Mem, t: Tree, g: Ptr, node: Ptr, slice: nat, group: bool, h: Ptr)
    requires Spawning(m, t, g, node, slice, group) && FirstInLine(m, t, g)
    requires h in t.kids
    ensures h in NewTree(m, t, g, node, slice, group).kids
    ensures var ring := NewTree(m, t, g, node, slice, group).kids[h];
            if h != g then ring == t.kids[h]
            else |ring| == |t.kids[g]| + 1 && ring[0] == if |t.kids[g]| == 0 then node else t.kids[g][0]
  {
    SlotFits(t, g, Cursor(m, g));
    if |t.kids[g]| > 0 {
      assert KidOk(t, g, 0);
    }
    if h == g {
      InsertedAt(t.kids[g], Slot(t, g, Cursor(m, g)), node, 0);
    }
  }

  lemma LinkedStillUnstarted(m: Mem, t: Tree, g: Ptr, node: Ptr, x: Ptr)
    requires x in m && Valid(t) && g in t.kids && g in t.nodes && node != NULL && node != g
    ensures var c, c' := m[x], Linking(m, t, g, node, x);
            && c'.remaining == c.remaining && c'.slice == c.slice && c'.state == c.state
            && c'.cursor == if x == g && (|t.kids[g]| == 0 || !IsKid(t, g, Cursor(m, g)) || Cursor(m, g) == t.root)
                            then node else c.cursor
  {
  }

  lemma SpawnFirstInLine(k1: State, k': State, t: Tree, t': Tree, g: Ptr, node: Ptr, slice: nat, group: bool, h: Ptr)
    requires Spawning(k1.mem, t, g, node, slice, group) && t' == NewTree(k1.mem, t, g, node, slice, group)
    requires k'.mem.Keys == k1.mem.Keys && forall x | x in k1.mem :: k'.mem[x] == Linking(k1.mem, t, g, node, x)
    requires Valid(t') && h in t'.kids && FirstInLine(k1.mem, t, g) && FirstInLine(k1.mem, t, h)
    requires h in k1.mem
    ensures FirstInLine(k'.mem, t', h)
  {
    hide NewTree, Linking;
    InsertedNodes(k1.mem, t, g, node, slice, group);
    LinkedStillUnstarted(k1.mem, t, g, node, h);
    assert NodeOk(t, t.root);
    if h in t.kids {
      GrownRings(k1.mem, t, g, node, slice, group, h);
      if |t.kids[g]| > 0 {
        assert KidOk(t, g, 0);
      }
    } else {
      NewGroupIsEmpty(k1.mem, t, g, node, slice, group);
    }
  }

  lemma NewGroupIsEmpty(m: Mem, t: Tree, g: Ptr, node: Ptr, slice: nat, group: bool)
    requires Spawning(m, t, g, node, slice, group)
    ensures var kids := NewTree(m, t, g, node, slice, group).kids;
            group ==> node in kids && kids[node] == []
  {
    SlotFits(t, g, Cursor(m, g));
  }

  lemma SpawnUnstarted(k: State, t: Tree, dead: seq<Ptr>, kind: Kind, g: Ptr, quantum: nat, slot: Ptr)
    requires Unstarted(k, t, dead) && g in t.kids && slot != NULL && slot !in k.mem
    ensures var born := if kind.Leaf? then 1 else 0;
            var k' := InsertChild(WithTcb(k, kind, g, quantum, slot), g, slot)
                      .(total := k.total + born, active := k.active + born);
            Unstarted(k', SpawnTree(k, t, dead, kind, g, quantum, slot), dead)
  {
    hide InsertChild, NewTree, WellFormed, Linking, FirstInLine;
    var slice, born := AtLeastOne(quantum), if kind.Leaf? then 1 else 0;
    var k1 := WithTcb(k, kind, g, quantum, slot);
    var k' := InsertChild(k1, g, slot).(total := k.total + born, active := k.active + born);
    var t' := SpawnTree(k, t, dead, kind, g, quantum, slot);
    SpawnWellFormed(k, t, dead, kind, g, quantum, slot);
    SpawnSetsUp(k, t, dead, kind, g, quantum, slot);
    InsertLinks(k1, t, g, slot, slice, kind.Group?);
    InsertedNodes(k1.mem, t, g, slot, slice, kind.Group?);
    assert Valid(t') by { TreeIsValid(k', t', dead); }
    SpawningApart(k1.mem, t, g, slot, slice, kind.Group?);
    assert k'.current == k.current && k'.root == k.root by { InsertKeepsCurrent(k1, g, slot); }
    forall x | x in k'.mem ensures Block(k', x).remaining == Block(k', x).slice && !NotRunnable(Block(k', x).state) {
      LinkedStillUnstarted(k1.mem, t, g, slot, x);
      assert x != slot ==> x in k.mem && k1.mem[x] == Block(k, x);
    }
    forall h | h in t.kids ensures FirstInLine(k1.mem, t, h) {
      assert FirstInLine(k.mem, t, h);
      SameCursor(k, kind, g, quantum, slot, t, h);
    }
    forall h | h in t'.kids ensures FirstInLine(k'.mem, t', h) {
      if h == slot {
        NotYetAGroup(k1.mem, t, slot);
      }
      assert h in k1.mem by { NodesThere(k', t', dead, h); }
      SpawnFirstInLine(k1, k', t, t', g, slot, slice, kind.Group?, h);
    }
    GrownRings(k1.mem, t, g, slot, slice, kind.Group?, t.root);
  }

  lemma NodesThere(k: State, t: Tree, dead: seq<Ptr>, h: Ptr)
    requires WellFormed(k, t, dead) && h in t.kids
    ensures h in k.mem
  {
    assert Holds(k.mem, t, h);
  }

  lemma SpawningApart(m: Mem, t: Tree, g: Ptr, node: Ptr, slice: nat, group: bool)
    requires Spawning(m, t, g, node, slice, group)
    ensures Valid(t) && g in t.nodes && node != g && t.root in t.kids && node !in t.kids
  {
  }

  lemma NotYetAGroup(m: Mem, t: Tree, slot: Ptr)
    requires slot !in t.kids
    ensures FirstInLine(m, t, slot)
  {
  }

  lemma SameCursor(k: State, kind: Kind, g: Ptr, quantum: nat, slot: Ptr, t: Tree, h: Ptr)
    requires FirstInLine(k.mem, t, h) && slot !in t.kids && h in t.kids
    ensures FirstInLine(WithTcb(k, kind, g, quantum, slot).mem, t, h)
  {
  }

  lemma InsertKeepsCurrent(k: State, g: Ptr, node: Ptr)
    ensures InsertChild(k, g, node).current == k.current && InsertChild(k, g, node).root == k.root
  {
  }

  predicate IsSpawn(s: Step) { s.SpawnStep? || s.SpawnGroupStep? }

  lemma FailedSpawnUnstarted(k: State, k': State, t: Tree, dead: seq<Ptr>)
    requires Unstarted(k, t, dead) && k.nodes <= k'.nodes && k.nextId <= k'.nextId
    requires k' == k.(nodes := k'.nodes, nextId := k'.nextId)
    ensures Unstarted(k', t, dead)
  {
    hide WellFormed;
    FailedSpawn(k, k', t, dead);
    forall x | x in k'.mem ensures Block(k', x) == Block(k, x) {
    }
  }

  lemma StepUnstarted(k: State, t: Tree, dead: seq<Ptr>, s: Step)
    requires Unstarted(k, t, dead) && IsSpawn(s) && Allowed(k, s)
    ensures Unstarted(Apply(k, s), TreeAfter(k, t, dead, s), dead)
  {
    hide Unstarted, InsertChild, SpawnTree;
    assert WellFormed(k, t, dead) by { UnstartedStands(k, t, dead); }
    GroupsAreInTree(k, t, dead, s.parent);
    if s.supply.Granted? {
      SpawnUnstarted(k, t, dead, if s.SpawnStep? then Leaf else Group, s.parent, s.quantum, s.supply.slot);
      InsertChildBooks(WithTcb(k, Group, s.parent, s.quantum, s.supply.slot), s.parent, s.supply.slot);
    } else {
      FailedSpawnUnstarted(k, Apply(k, s), t, dead);
    }
  }

  lemma UnstartedStands(k: State, t: Tree, dead: seq<Ptr>)
    requires Unstarted(k, t, dead)
    ensures WellFormed(k, t, dead)
  {
  }

  // ----- the tree that was asked for

  /** The children of g in the order they were spawned; task 0 is the root's first. */
  ghost function Children(r: Ptr, a: Ptr, steps: seq<Step>, g: Ptr): seq<Ptr> {
    if steps == [] then if g == r then [a] else []
    else
      var s := steps[|steps| - 1];
      Children(r, a, steps[..|steps| - 1], g) + if GrantedAt(s) && s.parent == g then [s.supply.slot] else []
  }

  predicate GrantedAt(s: Step) { IsSpawn(s) && s.supply.Granted? }

  ghost function Reversed(c: seq<Ptr>): (s: seq<Ptr>)
    ensures |s| == |c|
  {
    seq(|c|, i requires 0 <= i < |c| => c[|c| - 1 - i])
  }

  /** The ring they make before anything has run: the first, then the others, latest first. */
  ghost function BootRing(c: seq<Ptr>): seq<Ptr> {
    if c == [] then [] else [c[0]] + Reversed(c[1..])
  }

  lemma BootRingGrows(c: seq<Ptr>, node: Ptr)
    ensures BootRing(c + [node]) == if c == [] then [node] else Inserted(BootRing(c), 1, node)
  {
    if c != [] {
      assert (c + [node])[1..] == c[1..] + [node];
      var rest := c[1..];
      assert Reversed(rest + [node]) == [node] + Reversed(rest);
      assert BootRing(c)[..1] == [c[0]] && BootRing(c)[1..] == Reversed(rest);
    }
  }

  /** Node x is what step s asked for. */
  ghost predicate AskedFor(t: Tree, s: Step) {
    GrantedAt(s) ==>
      var x := s.supply.slot;
      && x in t.nodes && t.nodes[x].parent == s.parent
      && t.nodes[x].slice == (if s.quantum == 0 then 1 else s.quantum)
      && (x in t.kids <==> s.SpawnGroupStep?)
  }

  /** The tree is the one the steps asked for: a root of 2^32 - 1 ticks, task 0 of one tick, and
      a node for each granted spawn with its parent, its kind and its quantum, in boot order. */
  ghost predicate AsAsked(t: Tree, r: Ptr, a: Ptr, steps: seq<Step>) {
    && t.root == r && r in t.nodes && t.nodes[r].slice == U32_MAX
    && a in t.nodes && a !in t.kids && t.nodes[a].slice == 1
    && (forall s {:trigger AskedFor(t, s)} | s in steps :: AskedFor(t, s))
    && (forall x {:trigger x in t.nodes} | x in t.nodes ::
          x == r || x == a || exists s {:trigger s in steps} :: s in steps && GrantedAt(s) && s.supply.slot == x)
    && (forall g {:trigger t.kids[g]} | g in t.kids :: t.kids[g] == BootRing(Children(r, a, steps, g)))
  }

  lemma InitAsAsked(r: Ptr, a: Ptr)
    requires r != NULL && a != NULL && r != a
    ensures AsAsked(InitTree(r, a), r, a, [])
  {
    assert Reversed([]) == [];
    assert BootRing([a]) == [a];
  }

  /** What a granted spawn does to the tree of an unstarted kernel. */
  lemma SpawnShapes(k: State, t: Tree, dead: seq<Ptr>, kind: Kind, g: Ptr, quantum: nat, slot: Ptr)
    requires Unstarted(k, t, dead) && g in t.kids && slot != NULL && slot !in k.mem
    ensures var t' := SpawnTree(k, t, dead, kind, g, quantum, slot);
            && t'.root == t.root && t'.nodes.Keys == t.nodes.Keys + {slot} && slot !in t.nodes && slot !in t.kids
            && t'.nodes[slot].slice == (if quantum == 0 then 1 else quantum) && t'.nodes[slot].parent == g
            && (forall x {:trigger t'.nodes[x]} | x in t.nodes ::
                  t'.nodes[x].slice == t.nodes[x].slice && t'.nodes[x].parent == t.nodes[x].parent)
            && t'.kids.Keys == t.kids.Keys + (if kind.Group? then {slot} else {})
            && (kind.Group? ==> t'.kids[slot] == [])
            && (forall h {:trigger t'.kids[h]} | h in t.kids ::
                  t'.kids[h] == if h != g then t.kids[h]
                                else if t.kids[g] == [] then [slot] else Inserted(t.kids[g], 1, slot))
  {
    hide NewTree, WellFormed;
    var k1, slice := WithTcb(k, kind, g, quantum, slot), AtLeastOne(quantum);
    SpawnSetsUp(k, t, dead, kind, g, quantum, slot);
    InsertedNodes(k1.mem, t, g, slot, slice, kind.Group?);
    SlotIsNew(k, t, dead, slot);
    SpawningApart(k1.mem, t, g, slot, slice, kind.Group?);
    if kind.Group? {
      NewGroupIsEmpty(k1.mem, t, g, slot, slice, true);
    }
    assert FirstInLine(k.mem, t, g);
    SameCursor(k, kind, g, quantum, slot, t, g);
    NewRings(k1.mem, t, g, slot, slice, kind.Group?);
  }

  lemma NewRings(m: Mem, t: Tree, g: Ptr, node: Ptr, slice: nat, group: bool)
    requires Spawning(m, t, g, node, slice, group) && FirstInLine(m, t, g) && node !in t.kids
    ensures var t' := NewTree(m, t, g, node, slice, group);
            forall h {:trigger t'.kids[h]} | h in t.kids ::
              h in t'.kids
              && t'.kids[h] == if h != g then t.kids[h] else if t.kids[g] == [] then [node] else Inserted(t.kids[g], 1, node)
  {
    SlotFits(t, g, Cursor(m, g));
    if |t.kids[g]| > 0 {
      assert KidOk(t, g, 0);
    } else {
      assert Inserted(t.kids[g], 0, node) == [node];
    }
  }

  lemma SpawnAsAsked(t: Tree, t': Tree, r: Ptr, a: Ptr, steps: seq<Step>, s: Step)
    requires AsAsked(t, r, a, steps) && GrantedAt(s) && s.parent in t.kids && s.supply.slot != NULL
    requires var slot, g := s.supply.slot, s.parent;
             && t'.root == t.root && t'.nodes.Keys == t.nodes.Keys + {slot} && slot !in t.nodes && slot !in t.kids
             && t'.nodes[slot].slice == (if s.quantum == 0 then 1 else s.quantum) && t'.nodes[slot].parent == g
             && (forall x {:trigger t'.nodes[x]} | x in t.nodes ::
                   t'.nodes[x].slice == t.nodes[x].slice && t'.nodes[x].parent == t.nodes[x].parent)
             && t'.kids.Keys == t.kids.Keys + (if s.SpawnGroupStep? then {slot} else {})
             && (s.SpawnGroupStep? ==> t'.kids[slot] == [])
             && (forall h {:trigger t'.kids[h]} | h in t.kids ::
                   t'.kids[h] == if h != g then t.kids[h]
                                 else if t.kids[g] == [] then [slot] else Inserted(t.kids[g], 1, slot))
    requires Valid(t)
    ensures AsAsked(t', r, a, steps + [s])
  {
    hide BootRing, Inserted;
    var all := steps + [s];
    assert all[..|all| - 1] == steps;
    forall q | q in all ensures AskedFor(t', q) {
      if q != s {
        assert q in steps && AskedFor(t, q);
      }
    }
    forall x | x in t'.nodes ensures x == r || x == a || exists q :: q in all && GrantedAt(q) && q.supply.slot == x {
      if x in t.nodes {
        if x != r && x != a {
          var q :| q in steps && GrantedAt(q) && q.supply.slot == x;
          assert q in all;
        }
      } else {
        assert s in all;
      }
    }
    forall h | h in t'.kids ensures t'.kids[h] == BootRing(Children(r, a, all, h)) {
      assert Children(r, a, all, h) == Children(r, a, steps, h) + if s.parent == h then [s.supply.slot] else [];
      if h !in t.kids {
        NoChildrenYet(r, a, steps, t, h);
      }
      RingAsAsked(t, t', Children(r, a, steps, h), s, h);
    }
  }

  lemma RingAsAsked(t: Tree, t': Tree, c: seq<Ptr>, s: Step, h: Ptr)
    requires GrantedAt(s) && h in t'.kids && s.supply.slot !in t.kids && s.parent in t.kids
    requires if h in t.kids then t.kids[h] == BootRing(c) else h == s.supply.slot && c == [] && t'.kids[h] == []
    requires h in t.kids ==>
               t'.kids[h] == if h != s.parent then t.kids[h]
                             else if t.kids[h] == [] then [s.supply.slot] else Inserted(t.kids[h], 1, s.supply.slot)
    ensures t'.kids[h] == BootRing(c + if s.parent == h then [s.supply.slot] else [])
  {
    hide BootRing, Inserted;
    BootRingGrows(c, s.supply.slot);
    BootRingEmpty(c);
    assert c + [] == c;
  }

  lemma BootRingEmpty(c: seq<Ptr>)
    ensures BootRing(c) == [] <==> c == []
  {
  }

  /** Only nodes of the tree have been anybody's parent. */
  lemma {:induction false} NoChildrenYet(r: Ptr, a: Ptr, steps: seq<Step>, t: Tree, h: Ptr)
    requires h != r && h != NULL && h !in t.nodes && Valid(t)
    requires forall s {:trigger AskedFor(t, s)} | s in steps :: AskedFor(t, s)
    ensures Children(r, a, steps, h) == []
  {
    if steps != [] {
      var before, s := steps[..|steps| - 1], steps[|steps| - 1];
      assert s in steps && AskedFor(t, s);
      forall q | q in before ensures AskedFor(t, q) {
        assert q in steps;
      }
      NoChildrenYet(r, a, before, t, h);
      if GrantedAt(s) {
        assert NodeOk(t, s.supply.slot);
      }
    }
  }

  lemma RefusedAsAsked(t: Tree, r: Ptr, a: Ptr, steps: seq<Step>, s: Step)
    requires AsAsked(t, r, a, steps) && !GrantedAt(s)
    ensures AsAsked(t, r, a, steps + [s])
  {
    var all := steps + [s];
    assert all[..|all| - 1] == steps;
    forall q | q in all ensures AskedFor(t, q) {
      if q != s {
        assert q in steps && AskedFor(t, q);
      }
    }
    forall x | x in t.nodes && x != r && x != a ensures exists q :: q in all && GrantedAt(q) && q.supply.slot == x {
      var q :| q in steps && GrantedAt(q) && q.supply.slot == x;
      assert q in all;
    }
    forall h | h in t.kids ensures Children(r, a, all, h) == Children(r, a, steps, h) {
    }
  }

  lemma StepAsAsked(k: State, t: Tree, dead: seq<Ptr>, r: Ptr, a: Ptr, steps: seq<Step>, s: Step)
    requires Unstarted(k, t, dead) && IsSpawn(s) && Allowed(k, s) && AsAsked(t, r, a, steps)
    ensures WellFormed(k, t, dead) && AsAsked(TreeAfter(k, t, dead, s), r, a, steps + [s])
  {
    hide Unstarted, WellFormed, SpawnTree, AsAsked;
    UnstartedStands(k, t, dead);
    GroupsAreInTree(k, t, dead, s.parent);
    TreeIsValid(k, t, dead);
    if s.supply.Granted? {
      SpawnShapes(k, t, dead, if s.SpawnStep? then Leaf else Group, s.parent, s.quantum, s.supply.slot);
      SpawnAsAsked(t, TreeAfter(k, t, dead, s), r, a, steps, s);
    } else {
      RefusedAsAsked(t, r, a, steps, s);
    }
  }

  /** No matter what is spawned, in whatever order and whichever spawns fail: nothing has
      started, and the tree is the one asked for. */
  lemma {:induction false} SpawnsOnly(r: Ptr, a: Ptr, steps: seq<Step>) returns (t: Tree, dead: seq<Ptr>)
    requires r != NULL && a != NULL && r != a && Legal(Init(r, a), steps)
    requires forall i | 0 <= i < |steps| :: IsSpawn(steps[i])
    ensures Unstarted(Run(Init(r, a), steps), t, dead)
    ensures AsAsked(t, r, a, steps)
  {
    hide Unstarted, Apply, Init, AsAsked, WellFormed, InitTree, TreeAfter, Allowed;
    if steps == [] {
      InitUnstarted(r, a);
      InitAsAsked(r, a);
      t, dead := InitTree(r, a), [];
    } else {
      var before, s := steps[..|steps| - 1], steps[|steps| - 1];
      LegalPrefix(Init(r, a), steps);
      t, dead := SpawnsOnly(r, a, before);
      UnstartedStands(Run(Init(r, a), before), t, dead);
      StepUnstarted(Run(Init(r, a), before), t, dead, s);
      StepAsAsked(Run(Init(r, a), before), t, dead, r, a, before, s);
      assert before + [s] == steps;
      t := TreeAfter(Run(Init(r, a), before), t, dead, s);
    }
  }

  lemma UnstartedIsFresh(k: State, t: Tree, dead: seq<Ptr>)
    requires Unstarted(k, t, dead) && Staffed(t)
    ensures Fresh(k, t)
  {
    assert NodeOk(t, t.root) && KidOk(t, t.root, 0);
    forall x | x in t.nodes ensures Runnable(k.mem, x) && Remaining(k.mem, x) == t.nodes[x].slice {
      assert Holds(k.mem, t, x) && Block(k, x).remaining == Block(k, x).slice;
    }
    forall x | x in k.mem ensures !k.mem[x].state.Blocked? {
      assert !NotRunnable(Block(k, x).state);
    }
    forall g | g in t.kids ensures Cursor(k.mem, g) == t.kids[g][0] {
      assert FirstInLine(k.mem, t, g);
    }
    FirstLeaf(t);
  }

  lemma FirstLeaf(t: Tree)
    requires Valid(t) && Staffed(t) && IsLeaf(t, t.kids[t.root][0])
    ensures LeafAt(t, t.root, 0) == t.kids[t.root][0]
  {
    hide Count, Share;
    assert NodeOk(t, t.root);
    NothingCounted(t, t.root);
    FreshTurns(t, t.root);
  }

  /** Boot the kernel, spawn any tree without an empty group, start the clock: the k-th tick
      runs the leaf the closed form names, on the tree, the ring orders and the quanta that
      were asked for. */
  lemma BootedRunIsRoundRobin(r: Ptr, a: Ptr, steps: seq<Step>) returns (t: Tree, dead: seq<Ptr>)
    requires r != NULL && a != NULL && r != a && Legal(Init(r, a), steps)
    requires forall i | 0 <= i < |steps| :: IsSpawn(steps[i])
    ensures WellFormed(Run(Init(r, a), steps), t, dead)
    ensures AsAsked(t, r, a, steps)
    ensures Staffed(t) ==> Fresh(Run(Init(r, a), steps), t)
    ensures Staffed(t) ==>
              forall k: nat | k < U32_MAX :: Ticks(Run(Init(r, a), steps), k).current == LeafAt(t, t.root, k)
  {
    hide Unstarted, Run, Init, Fresh, Ticks, LeafAt, AsAsked;
    t, dead := SpawnsOnly(r, a, steps);
    var k0 := Run(Init(r, a), steps);
    UnstartedStands(k0, t, dead);
    if Staffed(t) {
      UnstartedIsFresh(k0, t, dead);
      forall k: nat | k < U32_MAX ensures Ticks(k0, k).current == LeafAt(t, t.root, k) {
        FreshRunIsRoundRobin(k0, t, k);
      }
    }
  }

  /** With no groups spawned this is also where the flat kernel's waiting bound starts. */
  lemma UnstartedIsInPlace(k: State, t: Tree, dead: seq<Ptr>)
    requires Unstarted(k, t, dead) && Waiting.Flat(t)
    ensures Waiting.InPlace(k, t, dead)
  {
    assert NodeOk(t, t.root) && FirstInLine(k.mem, t, t.root);
    assert Holds(k.mem, t, t.root) && Holds(k.mem, t, k.current) && NodeOk(t, k.current);
    assert Block(k, t.root).remaining == U32_MAX && Block(k, k.current).remaining >= 1;
  }
}
