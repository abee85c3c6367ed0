/**
  What everybody else can do to a task: wake it, and nothing more.
 */
module Foreign {
  import opened Tree
  import opened Memory
  import opened Dispatch
  import opened Walk
  import opened Lifecycle
  import opened Blocking
  import opened Growth
  import opened Departure
  import opened Soundness
  import opened Invariant
  import opened Books
  import opened Runs
  import opened Ledger
  import opened Deadlines

  /** The sections a task can only run itself. */
  predicate OwnStep(s: Step) {
    s.BlockStep? || s.TakeFlagStep? || s.ClearTimerStep? || s.SetTimerStep? || s.ExitStep?
  }

  /** A step that x does not take. */
  predicate Others(k: State, s: Step, x: Ptr) {
    OwnStep(s) ==> k.current != x
  }

  /** c' is what others can have made of c: a blocked task is as it was, flag, deadline, resource
      and all, or it is woken; a task that is not blocked stays so and keeps its timer. */
  ghost predicate OthersMade(c: Tcb, c': Tcb) {
    && c'.id == c.id && c'.kind == c.kind
    && (c'.state.Blocked? ==>
          c.state.Blocked? && c'.woken == c.woken && c'.deadline == c.deadline && c'.blockedOn == c.blockedOn)
    && (!c.state.Blocked? ==> c'.deadline == c.deadline && (c.woken ==> c'.woken))
  }

  lemma OthersTrans(a: Tcb, b: Tcb, c: Tcb)
    requires OthersMade(a, b) && OthersMade(b, c)
    ensures OthersMade(a, c)
  {
  }

  ghost predicate Mild(f: Tcb -> Tcb) {
    forall c {:trigger f(c)} :: OthersMade(c, f(c))
  }

  lemma CallbacksMild(now: nat, id: nat, resource: nat)
    ensures Mild(ExpireOne(now)) && Mild(WakeOne(id)) && Mild(ReleaseOne(resource))
  {
  }

  lemma {:induction false} SweepMild(m: Mem, w: seq<Ptr>, f: Tcb -> Tcb, x: Ptr)
    requires Mild(f) && x in m
    ensures x in Sweep(m, w, f) && OthersMade(m[x], Sweep(m, w, f)[x])
    decreases |w|
  {
    if w != [] {
      var m1 := if w[0] in m then m[w[0] := f(m[w[0]])] else m;
      SweepMild(m1, w[1..], f, x);
    }
  }

  lemma SwitchMild(k: State, t: Tree, dead: seq<Ptr>, x: Ptr)
    requires WellFormed(k, t, dead) && x in k.mem
    ensures x in ScheduleNext(k).0.mem && OthersMade(k.mem[x], ScheduleNext(k).0.mem[x])
  {
    hide PickNextLeaf, WellFormed, Represents;
    Structure(k, t, dead);
    var limit := WalkLimit(k.nodes);
    if k.current != NULL {
      LinkedLeaf(k.mem, t, k.current);
    }
    PickOffers(k.mem, t, k.current, limit);
    var (m, next) := PickNextLeaf(k.mem, t.root, k.current, limit);
    assert SteppedNode(k.mem[x], m[x], t, x);
  }

  lemma TickMild(k: State, t: Tree, dead: seq<Ptr>, x: Ptr)
    requires WellFormed(k, t, dead) && x in k.mem
    ensures x in OnTick(k).mem && OthersMade(k.mem[x], OnTick(k).mem[x])
  {
    hide Visited, DrainPath, Sweep;
    var mid := SweepState(k);
    MidwayKeys(k, t, dead);
    CallbacksMild(mid.ticks, 0, 0);
    SweepMild(mid.mem, Visited(mid), ExpireOne(mid.ticks), x);
  }

  lemma FirstMild(k: State, t: Tree, dead: seq<Ptr>, resource: nat, x: Ptr)
    requires WellFormed(k, t, dead) && x in k.mem
    ensures x in WakeFirstBlockedOn(k, resource).0.mem
    ensures OthersMade(k.mem[x], WakeFirstBlockedOn(k, resource).0.mem[x])
  {
    hide Visited;
    FirstWaiterWaits(k.mem, Visited(k), resource);
    Structure(k, t, dead);
  }

  /** Whatever the step, as long as x does not take it: x stays in the tree, is not blocked
      unless it was, and if it stays blocked it keeps its wake flag, its deadline and what it
      waits for. */
  lemma OthersOnlyWake(k: State, t: Tree, dead: seq<Ptr>, s: Step, x: Ptr)
    requires WellFormed(k, t, dead) && Allowed(k, s) && Others(k, s, x) && IsLeaf(t, x)
    ensures x in k.mem && x in Apply(k, s).mem && OthersMade(k.mem[x], Apply(k, s).mem[x])
    ensures IsLeaf(TreeAfter(k, t, dead, s), x)
  {
    hide WellFormed, OnTick, ScheduleNext, ExitTask, ReclaimFinished, InsertChild, Visited, OthersMade,
         WakeFirstBlockedOn, SpawnTree, Pruned;
    assert x in k.mem by { InTreeInMemory(k, t, dead, x); }
    match s
    case TickStep =>
      TickMild(k, t, dead, x);
      OnTickWellFormed(k, t, dead);
      SwitchMild(OnTick(k), t, dead, x);
      OthersTrans(k.mem[x], OnTick(k).mem[x], Apply(k, s).mem[x]);
    case SwitchStep => SwitchMild(k, t, dead, x);
    case WakeStep(id) =>
      CallbacksMild(0, id, 0);
      SweepMild(k.mem, Visited(k), WakeOne(id), x);
      OthersSame(k.mem[x], k.mem[x]);
    case ReleaseStep(resource) =>
      CallbacksMild(0, 0, resource);
      SweepMild(k.mem, Visited(k), ReleaseOne(resource), x);
      OthersSame(k.mem[x], k.mem[x]);
    case WakeFirstStep(resource) => FirstMild(k, t, dead, resource, x);
    case SpawnStep(g, quantum, supply) =>
      OthersSame(k.mem[x], k.mem[x]);
      if supply.Granted? {
        SpawnOthers(k, t, dead, Leaf, g, quantum, supply.slot, x);
      }
    case SpawnGroupStep(g, quantum, supply) =>
      OthersSame(k.mem[x], k.mem[x]);
      if supply.Granted? {
        SpawnOthers(k, t, dead, Group, g, quantum, supply.slot, x);
      }
    case ExitStep =>
      ExitSleeps(k, t, dead, x);
      OthersSame(k.mem[x], ExitTask(k).mem[x]);
      Structure(k, t, dead);
      ExitWellFormed(k, t, dead);
      PrunedNodes(t, k.current);
    case ReclaimStep(pinned) =>
      ReclaimSleeps(k, t, dead, pinned, x);
      OthersSame(k.mem[x], ReclaimFinished(k, pinned).mem[x]);
    case _ => OthersSame(k.mem[x], Apply(k, s).mem[x]);
  }

  lemma InTreeInMemory(k: State, t: Tree, dead: seq<Ptr>, x: Ptr)
    requires WellFormed(k, t, dead) && x in t.nodes
    ensures x in k.mem
  {
    assert Holds(k.mem, t, x);
  }

  lemma OthersSame(c: Tcb, c': Tcb)
    requires SameButLinks(c, c')
    ensures OthersMade(c, c')
  {
  }

  lemma SpawnOthers(k: State, t: Tree, dead: seq<Ptr>, kind: Kind, g: Ptr, quantum: nat, slot: Ptr, x: Ptr)
    requires WellFormed(k, t, dead) && IsGroup(k.mem, g) && slot != NULL && slot !in k.mem && IsLeaf(t, x)
    ensures g in t.kids
    ensures x in k.mem && x in InsertChild(WithTcb(k, kind, g, quantum, slot), g, slot).mem
    ensures OthersMade(k.mem[x], InsertChild(WithTcb(k, kind, g, quantum, slot), g, slot).mem[x])
    ensures IsLeaf(SpawnTree(k, t, dead, kind, g, quantum, slot), x)
  {
    hide InsertChild, NewTree;
    InTreeInMemory(k, t, dead, x);
    GroupsAreInTree(k, t, dead, g);
    SpawnSleeps(k, t, dead, kind, g, quantum, slot, x);
    SpawnSetsUp(k, t, dead, kind, g, quantum, slot);
    InsertedNodes(WithTcb(k, kind, g, quantum, slot).mem, t, g, slot, AtLeastOne(quantum), kind.Group?);
  }
}
