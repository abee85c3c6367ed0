/**
  The kernel as a state machine: any order of ticks, switches and critical sections, from
  the state init leaves behind.
 */
module Runs {
  import opened Tree
  import opened Memory
  import opened Dispatch
  import opened Walk
  import opened Rings
  import opened Lifecycle
  import opened Blocking
  import opened Growth
  import opened Departure
  import opened Invariant
  import opened Books

  /** The root group at address r, and the calling context adopted as task 0 at address a. */
  function Init(r: Ptr, a: Ptr): State {
    var root := ZeroTcb().(kind := Group, slice := U32_MAX, remaining := U32_MAX, head := a, cursor := a);
    var task0 := ZeroTcb().(state := Running, id := 1, parent := r, slice := 1, remaining := 1, next := a, prev := a);
    State(map[r := root, a := task0], r, a, a, NULL, 0, 0, 2, 1, 1, 0, 2, 0)
  }

  datatype Step =
    | TickStep
    | SwitchStep
    | BlockStep(resource: nat, deadline: nat, ready: bool)
    | TakeFlagStep
    | ClearTimerStep
    | SetTimerStep(deadline: nat)
    | WakeStep(id: nat)
    | ReleaseStep(resource: nat)
    | WakeFirstStep(resource: nat)
    | SpawnStep(parent: Ptr, quantum: nat, supply: Supply)
    | SpawnGroupStep(parent: Ptr, quantum: nat, supply: Supply)
    | ExitStep
    | ReclaimStep(pinned: set<Ptr>)

  /** What a step asks of its caller: spawns name a live group and get an unused address,
      and only a running task exits. */
  ghost predicate Allowed(k: State, s: Step) {
    match s
    case SpawnStep(parent, _, supply) => IsGroup(k.mem, parent) && Supplies(k, supply)
    case SpawnGroupStep(parent, _, supply) => IsGroup(k.mem, parent) && Supplies(k, supply)
    case ExitStep => k.current != NULL
    case _ => true
  }

  function Apply(k: State, s: Step): State {
    match s
    case TickStep => Tick(k).0
    case SwitchStep => ScheduleNext(k).0
    case BlockStep(resource, deadline, ready) => BlockUnless(k, resource, deadline, ready).0
    case TakeFlagStep => TakeWakeFlag(k).0
    case ClearTimerStep => ClearTimerDeadline(k)
    case SetTimerStep(deadline) => SetTimerDeadline(k, deadline)
    case WakeStep(id) => WakeTask(k, id)
    case ReleaseStep(resource) => WakeBlockedOn(k, resource)
    case WakeFirstStep(resource) => WakeFirstBlockedOn(k, resource).0
    case SpawnStep(parent, quantum, supply) => SpawnLeaf(k, parent, quantum, supply).0
    case SpawnGroupStep(parent, quantum, supply) => SpawnGroup(k, parent, quantum, supply).0
    case ExitStep => ExitTask(k)
    case ReclaimStep(pinned) => ReclaimFinished(k, pinned)
  }

  function Run(k: State, steps: seq<Step>): State {
    if steps == [] then k else Apply(Run(k, steps[..|steps| - 1]), steps[|steps| - 1])
  }

  ghost predicate Legal(k: State, steps: seq<Step>) {
    forall i | 0 <= i < |steps| :: Allowed(Run(k, steps[..i]), steps[i])
  }

  // ----- the invariant holds

  ghost function InitTree(r: Ptr, a: Ptr): Tree {
    Tree(r, map[r := Info(NULL, 0, 0, U32_MAX), a := Info(r, 0, 1, 1)], map[r := [a]], 2)
  }

  lemma InitWellFormed(r: Ptr, a: Ptr)
    requires r != NULL && a != NULL && r != a
    ensures WellFormed(Init(r, a), InitTree(r, a), [])
  {
    var k, t := Init(r, a), InitTree(r, a);
    assert NodeOk(t, r) && NodeOk(t, a) && KidOk(t, r, 0);
    assert Valid(t);
    assert Holds(k.mem, t, r) && Holds(k.mem, t, a);
    assert Leaves(t) == {a};
  }

  ghost function TreeAfter(k: State, t: Tree, dead: seq<Ptr>, s: Step): Tree
    requires WellFormed(k, t, dead) && Allowed(k, s)
  {
    match s
    case SpawnStep(g, quantum, Granted(slot)) =>
      GroupsAreInTree(k, t, dead, g);
      SpawnTree(k, t, dead, Leaf, g, quantum, slot)
    case SpawnGroupStep(g, quantum, Granted(slot)) =>
      GroupsAreInTree(k, t, dead, g);
      SpawnTree(k, t, dead, Group, g, quantum, slot)
    case ExitStep =>
      ExitWellFormed(k, t, dead);
      Pruned(t, k.current)
    case _ => t
  }

  ghost function DeadAfter(k: State, dead: seq<Ptr>, s: Step): seq<Ptr> {
    match s
    case ExitStep => [k.current] + dead
    case ReclaimStep(pinned) => Requeued(dead, pinned, [])
    case _ => dead
  }

  lemma GroupsAreInTree(k: State, t: Tree, dead: seq<Ptr>, g: Ptr)
    requires WellFormed(k, t, dead) && IsGroup(k.mem, g)
    ensures g in t.kids
  {
    forall x | x in k.mem && x !in t.nodes ensures k.mem[x].kind.Leaf? {
      assert Buried(k.mem, t, x);
    }
    if g in t.nodes {
      assert Holds(k.mem, t, g);
    }
  }

  lemma SpawnLeafWellFormed(k: State, t: Tree, dead: seq<Ptr>, g: Ptr, quantum: nat, supply: Supply)
    requires WellFormed(k, t, dead) && Allowed(k, SpawnStep(g, quantum, supply))
    ensures WellFormed(SpawnLeaf(k, g, quantum, supply).0, TreeAfter(k, t, dead, SpawnStep(g, quantum, supply)), dead)
  {
    hide InsertChild, WellFormed;
    match supply
    case Granted(slot) =>
      GroupsAreInTree(k, t, dead, g);
      SpawnWellFormed(k, t, dead, Leaf, g, quantum, slot);
    case _ => FailedSpawn(k, SpawnLeaf(k, g, quantum, supply).0, t, dead);
  }

  lemma FailedSpawn(k: State, k': State, t: Tree, dead: seq<Ptr>)
    requires WellFormed(k, t, dead) && k.nodes <= k'.nodes && k.nextId <= k'.nextId
    requires k' == k.(nodes := k'.nodes, nextId := k'.nextId)
    ensures WellFormed(k', t, dead)
  {
  }

  lemma SpawnGroupWellFormed(k: State, t: Tree, dead: seq<Ptr>, g: Ptr, quantum: nat, supply: Supply)
    requires WellFormed(k, t, dead) && Allowed(k, SpawnGroupStep(g, quantum, supply))
    ensures WellFormed(SpawnGroup(k, g, quantum, supply).0, TreeAfter(k, t, dead, SpawnGroupStep(g, quantum, supply)), dead)
  {
    hide InsertChild, WellFormed;
    if supply.Granted? {
      GroupsAreInTree(k, t, dead, g);
      SpawnWellFormed(k, t, dead, Group, g, quantum, supply.slot);
      InsertChildBooks(WithTcb(k, Group, g, quantum, supply.slot), g, supply.slot);
    }
  }

  lemma InsertChildBooks(k: State, g: Ptr, node: Ptr)
    ensures InsertChild(k, g, node).total == k.total && InsertChild(k, g, node).active == k.active
  {
  }

  /** Every step keeps the kernel invariant, and the lemma says what the tree and the
      deferred-free list have become. */
  lemma StepWellFormed(k: State, t: Tree, dead: seq<Ptr>, s: Step)
    requires WellFormed(k, t, dead) && Allowed(k, s)
    ensures WellFormed(Apply(k, s), TreeAfter(k, t, dead, s), DeadAfter(k, dead, s))
  {
    hide WellFormed, ScheduleNext, OnTick, ExitTask, ReclaimFinished, SpawnLeaf, SpawnGroup,
         WakeTask, WakeBlockedOn, WakeFirstBlockedOn, MarkBlocked, SpawnTree, Pruned;
    match s
    case TickStep =>
      OnTickWellFormed(k, t, dead);
      ScheduleIsSound(OnTick(k), t, dead);
    case SwitchStep => ScheduleIsSound(k, t, dead);
    case BlockStep(resource, deadline, ready) => BlockWellFormed(k, t, dead, resource, deadline);
    case TakeFlagStep => WakeFlagWellFormed(k, t, dead);
    case ClearTimerStep => ClearTimerWellFormed(k, t, dead);
    case SetTimerStep(deadline) => SetTimerWellFormed(k, t, dead, deadline);
    case WakeStep(id) => WakesWellFormed(k, t, dead, id, 0);
    case ReleaseStep(resource) => WakesWellFormed(k, t, dead, 0, resource);
    case WakeFirstStep(resource) => WakesWellFormed(k, t, dead, 0, resource);
    case SpawnStep(g, quantum, supply) => SpawnLeafWellFormed(k, t, dead, g, quantum, supply);
    case SpawnGroupStep(g, quantum, supply) => SpawnGroupWellFormed(k, t, dead, g, quantum, supply);
    case ExitStep => ExitWellFormed(k, t, dead);
    case ReclaimStep(pinned) => ReclaimWellFormed(k, t, dead, pinned);
  }

  /** The invariant holds in every state the kernel can reach from init: the rings are
      rings, no link dangles, every block is either linked in the tree or waiting once on
      the deferred-free list, and the counters agree. */
  lemma {:induction false} RunWellFormed(r: Ptr, a: Ptr, steps: seq<Step>) returns (t: Tree, dead: seq<Ptr>)
    requires r != NULL && a != NULL && r != a && Legal(Init(r, a), steps)
    ensures WellFormed(Run(Init(r, a), steps), t, dead)
  {
    hide WellFormed, Apply, Init;
    if steps == [] {
      InitWellFormed(r, a);
      t, dead := InitTree(r, a), [];
    } else {
      var before, s := steps[..|steps| - 1], steps[|steps| - 1];
      LegalPrefix(Init(r, a), steps);
      t, dead := RunWellFormed(r, a, before);
      var k := Run(Init(r, a), before);
      StepWellFormed(k, t, dead, s);
      t, dead := TreeAfter(k, t, dead, s), DeadAfter(k, dead, s);
    }
  }

  lemma LegalPrefix(k: State, steps: seq<Step>)
    requires Legal(k, steps) && steps != []
    ensures Legal(k, steps[..|steps| - 1])
    ensures Allowed(Run(k, steps[..|steps| - 1]), steps[|steps| - 1])
  {
    var before := steps[..|steps| - 1];
    forall i | 0 <= i < |before| ensures Allowed(Run(k, before[..i]), before[i]) {
      assert before[..i] == steps[..i];
    }
  }

  /** One more step. */
  lemma RunGoesOn(k: State, steps: seq<Step>, s: Step)
    requires Legal(k, steps) && Allowed(Run(k, steps), s)
    ensures Legal(k, steps + [s]) && Run(k, steps + [s]) == Apply(Run(k, steps), s)
  {
    hide Apply, Allowed;
    var longer := steps + [s];
    assert longer[..|steps|] == steps;
    forall i | 0 <= i < |longer| ensures Allowed(Run(k, longer[..i]), longer[i]) {
      if i < |steps| {
        assert longer[..i] == steps[..i];
      }
    }
  }

  /** Conservation of threads: spawned equals linked plus dead plus freed. */
  lemma ThreadsAreConserved(r: Ptr, a: Ptr, steps: seq<Step>) returns (t: Tree, dead: seq<Ptr>)
    requires r != NULL && a != NULL && r != a && Legal(Init(r, a), steps)
    ensures var k := Run(Init(r, a), steps);
            && WellFormed(k, t, dead)
            && k.active == |Leaves(t)|
            && k.total == |Leaves(t)| + |dead| + k.reclaimed
            && (forall x | x in k.mem :: x in t.nodes <==> x !in dead)
            && (forall x | x in t.nodes && x != t.root :: Linked(k.mem, x) && !k.mem[x].state.Dead?)
  {
    hide Run;
    t, dead := RunWellFormed(r, a, steps);
    var k := Run(Init(r, a), steps);
    forall x | x in k.mem ensures x in t.nodes <==> x !in dead {
      if x in dead {
        assert Buried(k.mem, t, x);
      }
    }
    forall x | x in t.nodes && x != t.root ensures Linked(k.mem, x) && !k.mem[x].state.Dead? {
      NextInMemory(k.mem, t, x);
      assert Holds(k.mem, t, x);
    }
  }

  /** x is current and may run its next section. */
  predicate OnCpu(k: State, x: Ptr) {
    k.current == x && x in k.mem && !k.mem[x].state.Blocked?
  }

  /** A task that has not finished: linked into the tree, with an id wakers can use. */
  predicate LivingTask(k: State, x: Ptr) {
    x in k.mem && k.mem[x].kind.Leaf? && !k.mem[x].state.Dead? && k.mem[x].id != 0
  }

  lemma LivingIsLeaf(k: State, t: Tree, dead: seq<Ptr>, x: Ptr)
    requires WellFormed(k, t, dead) && LivingTask(k, x)
    ensures IsLeaf(t, x)
  {
    assert x in dead ==> Buried(k.mem, t, x);
    assert x in t.nodes ==> Holds(k.mem, t, x);
  }
}
