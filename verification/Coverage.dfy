/**
  Whom the step limit of the tree walk leaves behind.  The limit grows by one per node, the
  walk takes up to two steps per node; so on a large tree that has lost no node yet the
  sweeps never get to the last ones, and a sleep there does not end.
 */
module Coverage {
  import opened Lists
  import opened Tree
  import opened Memory
  import opened Dispatch
  import opened Walk
  import opened Rings
  import opened Lifecycle
  import opened Growth
  import opened Departure
  import opened Invariant
  import opened Books
  import opened Runs
  import opened WalkOrder
  import opened Deadlines
  import opened Boot
  import Waiting

  /** The sweep of a tick wakes an expired sleeper exactly when the walk gets that far: node
      number j of the preorder, d levels below the top one, if and only if 2j + 1 - d steps
      are allowed. */
  lemma ExpiryReachesExactly(k: State, t: Tree, dead: seq<Ptr>, j: nat, x: Ptr)
    requires WellFormed(k, t, dead) && t.root in t.nodes
    requires j < |Below(t, t.root, 0)| && x == Below(t, t.root, 0)[j]
    requires x in k.mem && k.mem[x].state.Blocked? && 0 < k.mem[x].deadline <= k.ticks + 1
    ensures x in OnTick(k).mem && x in t.nodes
    ensures OnTick(k).mem[x].state.Blocked? <==> 2 * j + 1 - (t.nodes[x].level - 1) > WalkLimit(k.nodes)
  {
    hide WalkTree, Below, DrainPath, WellFormed;
    var mid := SweepState(k);
    MidwayWellFormed(k, t, dead);
    MidwayKeys(k, t, dead);
    RootInMemory(mid, t, dead);
    CallbacksIdempotent(mid.ticks, 0, 0);
    SweepExact(mid.mem, Visited(mid), ExpireOne(mid.ticks), x);
    ReachedExactly(mid, t, dead, j, x);
  }

  lemma ReachedExactly(k: State, t: Tree, dead: seq<Ptr>, j: nat, x: Ptr)
    requires WellFormed(k, t, dead) && t.root in t.nodes
    requires j < |Below(t, t.root, 0)| && x == Below(t, t.root, 0)[j]
    ensures x in t.nodes
    ensures x in Visited(k) <==> 2 * j + 1 - (t.nodes[x].level - 1) <= WalkLimit(k.nodes)
  {
    hide WalkTree, Below;
    var w, s := Visited(k), Below(t, t.root, 0);
    RootInMemory(k, t, dead);
    WalkReaches(k.mem, t, WalkLimit(k.nodes), j);
    EverybodyOnce(t);
    if x in w {
      var i :| 0 <= i < |w| && w[i] == x;
      assert s[i] == w[i];
    }
    if j < |w| {
      assert w[j] == s[j];
    }
  }

  lemma {:induction false} FlatBelow(t: Tree, i: nat)
    requires Valid(t) && Waiting.Flat(t) && t.root in t.nodes && i <= |t.kids[t.root]|
    ensures Below(t, t.root, i) == t.kids[t.root][i..]
    decreases |t.kids[t.root]| - i
  {
    hide Below, Preorder;
    FlatOpens(t, i);
    if i < |t.kids[t.root]| {
      FlatBelow(t, i + 1);
    }
  }

  lemma FlatOpens(t: Tree, i: nat)
    requires Valid(t) && Waiting.Flat(t) && t.root in t.nodes && i <= |t.kids[t.root]|
    ensures Below(t, t.root, i) == if i == |t.kids[t.root]| then [] else [t.kids[t.root][i]] + Below(t, t.root, i + 1)
  {
    if i < |t.kids[t.root]| {
      assert KidOk(t, t.root, i);
    }
  }

  /** In a flat kernel of n tasks the last one of the ring is looked at if and only if the
      node counter has reached 2n - 3. */
  lemma LastOfTheRing(k: State, t: Tree, dead: seq<Ptr>)
    requires WellFormed(k, t, dead) && Waiting.Flat(t) && |t.kids[t.root]| > 0
    ensures var n := |t.kids[t.root]|;
            t.kids[t.root][n - 1] in Visited(k) <==> k.nodes >= 2 * n - 3
  {
    hide Visited;
    var n := |t.kids[t.root]|;
    assert NodeOk(t, t.root) && KidOk(t, t.root, n - 1) && NodeOk(t, t.kids[t.root][n - 1]);
    FlatBelow(t, 0);
    ReachedExactly(k, t, dead, n - 1, t.kids[t.root][n - 1]);
  }

  // ----- a kernel that has only spawned

  function Spawns(r: Ptr, slots: seq<Ptr>): seq<Step> {
    seq(|slots|, i requires 0 <= i < |slots| => SpawnStep(r, 1, Granted(slots[i])))
  }

  lemma SpawnsExtend(r: Ptr, slots: seq<Ptr>)
    requires slots != []
    ensures Spawns(r, slots)[..|slots| - 1] == Spawns(r, slots[..|slots| - 1])
    ensures |Spawns(r, slots)| == |slots|
    ensures Spawns(r, slots)[|slots| - 1] == SpawnStep(r, 1, Granted(slots[|slots| - 1]))
  {
  }

  ghost predicate OnlyTasks(k: State, t: Tree, dead: seq<Ptr>, n: nat) {
    && Unstarted(k, t, dead)
    && Waiting.Flat(t)
    && |t.kids[t.root]| == n && k.nodes == n + 1
  }

  lemma OneMoreTask(k: State, t: Tree, dead: seq<Ptr>, n: nat, slot: Ptr)
    requires OnlyTasks(k, t, dead, n) && slot != NULL && slot !in k.mem && IsGroup(k.mem, k.root)
    ensures var s := SpawnStep(k.root, 1, Granted(slot));
            && Allowed(k, s)
            && OnlyTasks(Apply(k, s), TreeAfter(k, t, dead, s), dead, n + 1)
            && Apply(k, s).mem.Keys == k.mem.Keys + {slot} && Apply(k, s).root == k.root
            && IsGroup(Apply(k, s).mem, k.root)
  {
    hide InsertChild, Unstarted, FirstInLine, WellFormed, SpawnTree;
    var s := SpawnStep(k.root, 1, Granted(slot));
    UnstartedStands(k, t, dead);
    StepUnstarted(k, t, dead, s);
    GroupsAreInTree(k, t, dead, k.root);
    SpawnKeeps(k, t, dead, Leaf, k.root, 1, slot);
    SpawnCounts(k, t, dead, slot);
    UnstartedStands(Apply(k, s), TreeAfter(k, t, dead, s), dead);
    RootInMemory(Apply(k, s), TreeAfter(k, t, dead, s), dead);
    RootIsGroup(Apply(k, s), TreeAfter(k, t, dead, s), dead);
  }

  lemma RootIsGroup(k: State, t: Tree, dead: seq<Ptr>)
    requires WellFormed(k, t, dead)
    ensures IsGroup(k.mem, k.root)
  {
    assert Holds(k.mem, t, t.root);
  }

  lemma SpawnCounts(k: State, t: Tree, dead: seq<Ptr>, slot: Ptr)
    requires Unstarted(k, t, dead) && slot != NULL && slot !in k.mem && Waiting.Flat(t)
    requires k.root in t.kids && WellFormed(k, t, dead)
    ensures var s := SpawnStep(k.root, 1, Granted(slot));
            var t' := SpawnTree(k, t, dead, Leaf, k.root, 1, slot);
            && Waiting.Flat(t') && t'.root == t.root
            && t'.root in t'.kids && |t'.kids[t'.root]| == |t.kids[t.root]| + 1
            && Apply(k, s).nodes == k.nodes + 1 && Apply(k, s).root == k.root
  {
    hide NewTree, WellFormed;
    SpawnSetsUp(k, t, dead, Leaf, k.root, 1, slot);
    var k1 := WithTcb(k, Leaf, k.root, 1, slot);
    RootInMemory(k, t, dead);
    InsertedNodes(k1.mem, t, k.root, slot, 1, false);
    assert FirstInLine(k.mem, t, k.root);
    SameCursor(k, Leaf, k.root, 1, slot, t, k.root);
    GrownRings(k1.mem, t, k.root, slot, 1, false, k.root);
  }

  lemma {:induction false} SpawnedTasks(r: Ptr, a: Ptr, slots: seq<Ptr>) returns (t: Tree, dead: seq<Ptr>)
    requires r != NULL && a != NULL && r != a && Distinct([r, a] + slots) && NULL !in slots
    ensures Legal(Init(r, a), Spawns(r, slots))
    ensures var k := Run(Init(r, a), Spawns(r, slots));
            && OnlyTasks(k, t, dead, |slots| + 1)
            && k.root == r && IsGroup(k.mem, r)
            && forall x :: x in k.mem <==> x in [r, a] + slots
  {
    hide OnlyTasks, Apply, TreeAfter, Allowed;
    if slots == [] {
      InitUnstarted(r, a);
      t, dead := InitTree(r, a), [];
      assert OnlyTasks(Init(r, a), t, dead, 1) by { InitIsFlat(r, a); }
    } else {
      var before, slot := slots[..|slots| - 1], slots[|slots| - 1];
      SpawnsExtend(r, slots);
      LastIsNew([r, a], slots);
      t, dead := SpawnedTasks(r, a, before);
      var k := Run(Init(r, a), Spawns(r, before));
      assert WellFormed(k, t, dead) && Unstarted(k, t, dead) by { OnlyTasksStand(k, t, dead, |before| + 1); }
      OneMoreTask(k, t, dead, |before| + 1, slot);
      LegalExtends(Init(r, a), Spawns(r, slots));
      t := TreeAfter(k, t, dead, SpawnStep(r, 1, Granted(slot)));
      assert [r, a] + slots == [r, a] + before + [slot];
    }
  }

  lemma OnlyTasksStand(k: State, t: Tree, dead: seq<Ptr>, n: nat)
    requires OnlyTasks(k, t, dead, n)
    ensures WellFormed(k, t, dead) && Unstarted(k, t, dead)
  {
    UnstartedStands(k, t, dead);
  }

  lemma InitIsFlat(r: Ptr, a: Ptr)
    requires r != NULL && a != NULL && r != a
    ensures OnlyTasks(Init(r, a), InitTree(r, a), [], 1)
  {
    InitUnstarted(r, a);
  }

  lemma LastIsNew(front: seq<Ptr>, s: seq<Ptr>)
    requires s != [] && Distinct(front + s)
    ensures s[|s| - 1] !in front + s[..|s| - 1]
    ensures Distinct(front + s[..|s| - 1])
  {
    var all := front + s;
    var most := front + s[..|s| - 1];
    assert most == all[..|all| - 1];
    forall i | 0 <= i < |most| ensures most[i] != s[|s| - 1] {
      assert all[i] != all[|all| - 1];
    }
  }

  lemma LegalExtends(k: State, steps: seq<Step>)
    requires steps != [] && Legal(k, steps[..|steps| - 1])
    requires Allowed(Run(k, steps[..|steps| - 1]), steps[|steps| - 1])
    ensures Legal(k, steps)
  {
    hide Run, Allowed;
    var before := steps[..|steps| - 1];
    forall i | 0 <= i < |steps| ensures Allowed(Run(k, steps[..i]), steps[i]) {
      if i < |before| {
        assert before[..i] == steps[..i] && before[i] == steps[i];
      } else {
        assert steps[..i] == before;
      }
    }
  }

  /** Task 0 and n - 1 spawned tasks, none of which has finished: with four or fewer the
      sweep sees them all, with five or more it never sees the last of the ring. */
  lemma FiveTasksAreTooMany(r: Ptr, a: Ptr, slots: seq<Ptr>) returns (t: Tree, dead: seq<Ptr>)
    requires r != NULL && a != NULL && r != a && Distinct([r, a] + slots) && NULL !in slots
    ensures Legal(Init(r, a), Spawns(r, slots))
    ensures var k, n := Run(Init(r, a), Spawns(r, slots)), |slots| + 1;
            && WellFormed(k, t, dead) && k.root == t.root && |t.kids[t.root]| == n
            && (t.kids[t.root][n - 1] in Visited(k) <==> n <= 4)
  {
    hide Run, Visited, Legal, Unstarted;
    t, dead := SpawnedTasks(r, a, slots);
    UnstartedStands(Run(Init(r, a), Spawns(r, slots)), t, dead);
    LastOfTheRing(Run(Init(r, a), Spawns(r, slots)), t, dead);
  }

  // ----- every run

  lemma {:induction false} DrainNodes(k: State, node: Ptr, pinned: set<Ptr>, budget: nat)
    ensures Drain(k, node, pinned, budget).nodes == k.nodes
    decreases budget
  {
    if node in k.mem && budget > 0 {
      var next := k.mem[node].prev;
      if node in pinned {
        DrainNodes(k.(mem := SetPrev(k.mem, node, k.pending), pending := node), next, pinned, budget - 1);
      } else {
        DrainNodes(k.(mem := Without(k.mem, node), reclaimed := k.reclaimed + 1), next, pinned, budget - 1);
      }
    }
  }

  lemma NodesOnlyGrow(k: State, s: Step)
    ensures var spent := match s
                         case SpawnStep(_, _, supply) => if supply.NoTcb? then 0 else 1
                         case SpawnGroupStep(g, _, supply) => if supply.Granted? && g in k.mem then 1 else 0
                         case _ => 0;
            Apply(k, s).nodes == k.nodes + spent
  {
    hide PickNextLeaf, Sweep, FirstWaiter, Drain, InsertAfter, Unlink;
    if s.ReclaimStep? {
      DrainNodes(k.(pending := NULL), k.pending, s.pinned, |k.mem|);
    }
  }

  lemma {:induction false} RequeuedShrinks(rest: seq<Ptr>, pinned: set<Ptr>, kept: seq<Ptr>)
    ensures |Requeued(rest, pinned, kept)| <= |rest| + |kept|
    decreases |rest|
  {
    if rest != [] {
      RequeuedShrinks(rest[1..], pinned, if rest[0] in pinned then [rest[0]] + kept else kept);
    }
  }

  lemma SizeOfKeys(m: map<Ptr, Info>)
    ensures |m| == |m.Keys|
  {
  }

  lemma StepFits(k: State, t: Tree, dead: seq<Ptr>, s: Step)
    requires WellFormed(k, t, dead) && Allowed(k, s) && |t.nodes| + |dead| <= k.nodes
    ensures |TreeAfter(k, t, dead, s).nodes| + |DeadAfter(k, dead, s)| <= Apply(k, s).nodes
  {
    hide WellFormed, Apply, Pruned, NewTree;
    NodesOnlyGrow(k, s);
    SizeOfKeys(t.nodes);
    SizeOfKeys(TreeAfter(k, t, dead, s).nodes);
    match s
    case SpawnStep(g, quantum, Granted(slot)) => SpawnFits(k, t, dead, Leaf, g, quantum, slot);
    case SpawnGroupStep(g, quantum, Granted(slot)) => SpawnFits(k, t, dead, Group, g, quantum, slot);
    case ExitStep => ExitFits(k, t, dead);
    case ReclaimStep(pinned) => RequeuedShrinks(dead, pinned, []);
    case _ =>
  }

  lemma SpawnFits(k: State, t: Tree, dead: seq<Ptr>, kind: Kind, g: Ptr, quantum: nat, slot: Ptr)
    requires WellFormed(k, t, dead) && IsGroup(k.mem, g) && slot != NULL && slot !in k.mem
    ensures g in t.kids && SpawnTree(k, t, dead, kind, g, quantum, slot).nodes.Keys == t.nodes.Keys + {slot}
  {
    hide NewTree;
    GroupsAreInTree(k, t, dead, g);
    SpawnSetsUp(k, t, dead, kind, g, quantum, slot);
    InsertedNodes(WithTcb(k, kind, g, quantum, slot).mem, t, g, slot, AtLeastOne(quantum), kind.Group?);
  }

  lemma ExitFits(k: State, t: Tree, dead: seq<Ptr>)
    requires WellFormed(k, t, dead) && k.current != NULL
    ensures Valid(t) && IsLeaf(t, k.current) && k.current != t.root
    ensures Pruned(t, k.current).nodes.Keys == t.nodes.Keys - {k.current}
  {
    ExitWellFormed(k, t, dead);
    PrunedNodes(t, k.current);
  }

  /** In every reachable state with at most four nodes below the root the sweeps cover the
      tree, so every wake is delivered and nobody sleeps past a deadline. */
  lemma {:induction false} SmallKernelsAreCovered(r: Ptr, a: Ptr, steps: seq<Step>) returns (t: Tree, dead: seq<Ptr>)
    requires r != NULL && a != NULL && r != a && Legal(Init(r, a), steps)
    ensures var k := Run(Init(r, a), steps);
            && WellFormed(k, t, dead) && |t.nodes| + |dead| <= k.nodes
            && (|t.nodes| <= 5 ==> Covered(t, WalkLimit(k.nodes)))
  {
    hide WellFormed, Apply, Init, TreeAfter, DeadAfter, Allowed;
    if steps == [] {
      InitWellFormed(r, a);
      t, dead := InitTree(r, a), [];
      InitFits(r, a);
    } else {
      var before, s := steps[..|steps| - 1], steps[|steps| - 1];
      LegalPrefix(Init(r, a), steps);
      t, dead := SmallKernelsAreCovered(r, a, before);
      var k := Run(Init(r, a), before);
      StepWellFormed(k, t, dead, s);
      StepFits(k, t, dead, s);
      t, dead := TreeAfter(k, t, dead, s), DeadAfter(k, dead, s);
    }
  }

  lemma InitFits(r: Ptr, a: Ptr)
    requires r != a
    ensures |InitTree(r, a).nodes| == 2 && Init(r, a).nodes == 2
  {
    SizeOfKeys(InitTree(r, a).nodes);
    assert InitTree(r, a).nodes.Keys == {r, a};
  }
}
