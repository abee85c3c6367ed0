/**
  Sweeps wake exactly whom they should, and a sleep ends exactly on its tick.
 */
module Deadlines {
  import opened Tree
  import opened Memory
  import opened Time
  import opened Dispatch
  import opened Walk
  import opened Climb
  import opened Rings
  import opened Lifecycle
  import opened Blocking
  import opened Growth
  import opened Departure
  import opened Soundness
  import opened Invariant
  import opened Books
  import opened Runs
  import opened Ledger
  import opened WalkOrder

  // ----- a sweep, block by block

  ghost predicate Idempotent(f: Tcb -> Tcb) {
    forall c {:trigger f(c)} :: f(f(c)) == f(c)
  }

  lemma {:induction false} SweepExact(m: Mem, w: seq<Ptr>, f: Tcb -> Tcb, x: Ptr)
    requires Idempotent(f) && x in m
    ensures x in Sweep(m, w, f) && Sweep(m, w, f)[x] == if x in w then f(m[x]) else m[x]
    decreases |w|
  {
    if w != [] {
      var p := w[0];
      var m1 := if p in m then m[p := f(m[p])] else m;
      SweepExact(m1, w[1..], f, x);
    }
  }

  lemma CallbacksIdempotent(now: nat, id: nat, resource: nat)
    ensures Idempotent(ExpireOne(now)) && Idempotent(WakeOne(id)) && Idempotent(ReleaseOne(resource))
  {
  }

  lemma VisitedCovers(k: State, t: Tree, dead: seq<Ptr>)
    requires WellFormed(k, t, dead) && Covered(t, WalkLimit(k.nodes))
    ensures forall x | x in t.nodes && x != t.root :: x in Visited(k)
  {
    WalkCovers(k.mem, t, WalkLimit(k.nodes));
  }

  /** A wake reaches its task, wherever in the tree it is, provided the walk covers the
      tree: the flag is set, a blocked task is blocked no longer, and nobody else is
      touched. */
  lemma WakeDelivers(k: State, t: Tree, dead: seq<Ptr>, x: Ptr, y: Ptr)
    requires WellFormed(k, t, dead) && Covered(t, WalkLimit(k.nodes))
    requires x in t.nodes && x != t.root && y in k.mem && y != x
    requires x in k.mem && k.mem[x].id != 0
    ensures var k' := WakeTask(k, k.mem[x].id);
            && x in k'.mem && k'.mem[x].woken && !k'.mem[x].state.Blocked?
            && (!k.mem[x].state.Blocked? ==> k'.mem[x] == k.mem[x].(woken := true))
            && y in k'.mem && k'.mem[y] == k.mem[y]
  {
    hide WellFormed, Visited;
    assert k.root in k.mem by { RootInMemory(k, t, dead); }
    var id := k.mem[x].id;
    VisitedCovers(k, t, dead);
    CallbacksIdempotent(0, id, 0);
    SweepExact(k.mem, Visited(k), WakeOne(id), x);
    SweepExact(k.mem, Visited(k), WakeOne(id), y);
    assert k.mem[y].id != id by { IdsDiffer(k, t, dead, x, y); }
  }

  lemma RootInMemory(k: State, t: Tree, dead: seq<Ptr>)
    requires WellFormed(k, t, dead)
    ensures k.root in k.mem && k.root == t.root
  {
    assert Holds(k.mem, t, t.root);
  }

  lemma IdsDiffer(k: State, t: Tree, dead: seq<Ptr>, x: Ptr, y: Ptr)
    requires WellFormed(k, t, dead) && x in k.mem && y in k.mem && x != y
    ensures k.mem[x].id != k.mem[y].id
  {
  }

  /** Without coverage a wake is lost on exactly the nodes the step limit does not reach:
      node number j of the preorder (from zero), d levels below the top one, is woken if and
      only if 2j + 1 - d is within the limit. */
  lemma WakeReachesExactly(k: State, t: Tree, dead: seq<Ptr>, j: nat, x: Ptr)
    requires WellFormed(k, t, dead) && t.root in t.nodes
    requires j < |Below(t, t.root, 0)| && x == Below(t, t.root, 0)[j]
    requires x in k.mem && k.mem[x].id != 0 && !k.mem[x].woken
    ensures x in WakeTask(k, k.mem[x].id).mem && x in t.nodes
    ensures WakeTask(k, k.mem[x].id).mem[x].woken <==> 2 * j + 1 - (t.nodes[x].level - 1) <= WalkLimit(k.nodes)
  {
    hide WalkTree, Below;
    var id, w, s := k.mem[x].id, Visited(k), Below(t, t.root, 0);
    RootInMemory(k, t, dead);
    CallbacksIdempotent(0, id, 0);
    SweepExact(k.mem, w, WakeOne(id), x);
    WalkReaches(k.mem, t, WalkLimit(k.nodes), j);
    EverybodyOnce(t);
    if x in w {
      var i :| 0 <= i < |w| && w[i] == x;
      assert s[i] == w[i];
    }
    if j < |w| {
      assert w[j] == s[j];
    }
  }

  /** A queue hands its wake to one waiter and no more, and finds one if the walk covers
      the tree and there is one. */
  lemma OneWaiterIsWoken(k: State, t: Tree, dead: seq<Ptr>, resource: nat)
    requires WellFormed(k, t, dead) && Covered(t, WalkLimit(k.nodes))
    ensures var (k', found) := WakeFirstBlockedOn(k, resource);
            && (found <==> exists x :: x in k.mem && WaitsFor(k.mem[x], resource))
            && (!found ==> k' == k)
            && (found ==> exists x :: x in k.mem && WaitsFor(k.mem[x], resource)
                            && k' == k.(mem := k.mem[x := Awake(k.mem[x]).(woken := true)]))
  {
    hide Visited;
    RootInMemory(k, t, dead);
    FirstWaiterWaits(k.mem, Visited(k), resource);
    VisitedCovers(k, t, dead);
    assert NULL !in k.mem;
    BlockedAreLinked(k, t, dead);
    forall x | x in k.mem && WaitsFor(k.mem[x], resource) ensures x in Visited(k) {
      WaiterIsFound(k.mem, Visited(k), resource, x);
    }
    if exists x :: x in k.mem && WaitsFor(k.mem[x], resource) {
      var x :| x in k.mem && WaitsFor(k.mem[x], resource);
      WaiterIsFound(k.mem, Visited(k), resource, x);
    }
  }

  lemma BlockedAreLinked(k: State, t: Tree, dead: seq<Ptr>)
    requires WellFormed(k, t, dead)
    ensures forall x | x in k.mem && k.mem[x].state.Blocked? :: x in t.nodes && x != t.root
  {
    forall x | x in k.mem && x !in t.nodes ensures k.mem[x].state.Dead? {
      assert Buried(k.mem, t, x);
    }
    assert Holds(k.mem, t, t.root);
  }

  lemma {:induction false} WaiterIsFound(m: Mem, visited: seq<Ptr>, resource: nat, x: Ptr)
    requires x in m && WaitsFor(m[x], resource)
    ensures x in visited ==> FirstWaiter(m, visited, resource) in m && FirstWaiter(m, visited, resource) in visited
    decreases |visited|
  {
    if visited != [] {
      WaiterIsFound(m, visited[1..], resource, x);
    }
  }

  // ----- deadlines

  /** After a covered tick nobody is blocked past a deadline. */
  lemma NobodyIsLate(k: State, t: Tree, dead: seq<Ptr>, x: Ptr)
    requires WellFormed(k, t, dead) && Covered(t, WalkLimit(k.nodes)) && x in k.mem
    ensures x in OnTick(k).mem && !Expired(OnTick(k).mem[x], OnTick(k).ticks)
  {
    hide Visited, DrainPath;
    var mid := SweepState(k);
    MidwayWellFormed(k, t, dead);
    VisitedCovers(mid, t, dead);
    CallbacksIdempotent(mid.ticks, 0, 0);
    assert mid.root in mid.mem by { RootInMemory(mid, t, dead); }
    assert x in mid.mem by { MidwayKeys(k, t, dead); }
    SweepExact(mid.mem, Visited(mid), ExpireOne(mid.ticks), x);
    if x !in t.nodes {
      assert Buried(mid.mem, t, x);
    } else {
      assert Holds(mid.mem, t, x);
    }
  }

  /** A tick between its drain and its sweep. */
  function SweepState(k: State): State {
    k.(ticks := k.ticks + 1, mem := DrainPath(k.mem, k.current, WalkLimit(k.nodes)))
  }

  lemma MidwayWellFormed(k: State, t: Tree, dead: seq<Ptr>)
    requires WellFormed(k, t, dead)
    ensures WellFormed(SweepState(k), t, dead)
  {
    DrainKept(k.mem, t, k.current, WalkLimit(k.nodes));
    KeptWellFormed(k, SweepState(k), t, dead);
  }

  lemma MidwayKeys(k: State, t: Tree, dead: seq<Ptr>)
    requires WellFormed(k, t, dead)
    ensures SweepState(k).mem.Keys == k.mem.Keys
    ensures forall x | x in k.mem :: SweepState(k).mem[x] == k.mem[x].(remaining := SweepState(k).mem[x].remaining)
  {
    if k.current == NULL {
    } else {
      RepresentsClimbs(k.mem, t);
      assert NodeOk(t, k.current);
      DrainSpendsPath(k.mem, t, k.current, WalkLimit(k.nodes));
    }
  }

  // ----- a sleeping task

  /** x sleeps until tick d. */
  ghost predicate Asleep(k: State, x: Ptr, d: nat) {
    && x in k.mem && k.mem[x].kind.Leaf?
    && k.mem[x].state.Blocked? && k.mem[x].deadline == d && k.ticks < d
  }

  /** sleep(duration): the caller is asleep until exactly the least number of ticks from now
      that covers the duration -- if and only if that tick does not overflow 64 bits. */
  lemma SleepStarts(k: State, t: Tree, dead: seq<Ptr>, duration: nat, sliceNs: nat)
    requires WellFormed(k, t, dead) && k.current != NULL && k.ticks < U64_SIZE
    ensures var n := TicksFor(duration, sliceNs);
            var (k', outcome) := BlockForTicks(k, 0, n);
            (outcome == BlockedNow && Asleep(k', k.current, k.ticks + n)) <==> k.ticks + n < U64_SIZE
  {
    assert Holds(k.mem, t, k.current);
    var n := TicksFor(duration, sliceNs);
    if k.ticks + n >= U64_SIZE {
      TicksForFits(duration, sliceNs);
      assert (k.ticks + n) % U64_SIZE == k.ticks + n - U64_SIZE;
    } else {
      assert (k.ticks + n) % U64_SIZE == k.ticks + n;
    }
  }

  lemma TicksForFits(duration: nat, sliceNs: nat)
    ensures 1 <= TicksFor(duration, sliceNs) <= U64_MAX
  {
  }

  /** A step that is not taken by x itself, is no wake for x, and, if it is a tick, whose
      sweep reaches x. */
  ghost predicate Undisturbed(k: State, s: Step, x: Ptr)
    requires x in k.mem
  {
    match s
    case TickStep => x in Visited(SweepState(k))
    case SwitchStep => true
    case WakeStep(id) => id != k.mem[x].id
    case ReleaseStep(resource) => resource != k.mem[x].blockedOn
    case WakeFirstStep(resource) => resource != k.mem[x].blockedOn
    case SpawnStep(_, _, _) => true
    case SpawnGroupStep(_, _, _) => true
    case ReclaimStep(_) => true
    case _ => k.current != x
  }

  lemma TickSleeps(k: State, t: Tree, dead: seq<Ptr>, x: Ptr, d: nat)
    requires WellFormed(k, t, dead) && Asleep(k, x, d) && x in Visited(SweepState(k))
    ensures OnTick(k).ticks == k.ticks + 1 && x in OnTick(k).mem
    ensures if k.ticks + 1 == d then !OnTick(k).mem[x].state.Blocked? else Asleep(OnTick(k), x, d)
  {
    hide Visited, DrainPath;
    var mid := SweepState(k);
    MidwayWellFormed(k, t, dead);
    MidwayKeys(k, t, dead);
    CallbacksIdempotent(mid.ticks, 0, 0);
    assert mid.root in mid.mem by { RootInMemory(mid, t, dead); }
    SweepExact(mid.mem, Visited(mid), ExpireOne(mid.ticks), x);
  }

  /** A dispatch touches the state of nobody who is blocked, and blocks nobody. */
  lemma SwitchSleeps(k: State, t: Tree, dead: seq<Ptr>, x: Ptr)
    requires WellFormed(k, t, dead) && x in k.mem
    ensures var k' := ScheduleNext(k).0;
            && x in k'.mem && k'.ticks == k.ticks && k'.mem[x].kind == k.mem[x].kind
            && k'.mem[x].deadline == k.mem[x].deadline && k'.mem[x].blockedOn == k.mem[x].blockedOn
            && (k'.mem[x].state.Blocked? <==> k.mem[x].state.Blocked?)
            && k'.mem[x].id == k.mem[x].id
  {
    hide PickNextLeaf, WellFormed, Represents;
    Structure(k, t, dead);
    var limit := WalkLimit(k.nodes);
    if k.current != NULL {
      LinkedLeaf(k.mem, t, k.current);
    }
    PickOffers(k.mem, t, k.current, limit);
    var (m, next) := PickNextLeaf(k.mem, t.root, k.current, limit);
    assert SteppedNode(k.mem[x], m[x], t, x);
    if next != NULL {
      SteppedRuns(k.mem, m, t, next);
    }
  }

  lemma SpawnSleeps(k: State, t: Tree, dead: seq<Ptr>, kind: Kind, g: Ptr, quantum: nat, slot: Ptr, x: Ptr)
    requires WellFormed(k, t, dead) && g in t.kids && slot != NULL && slot !in k.mem && x in k.mem
    ensures var k' := InsertChild(WithTcb(k, kind, g, quantum, slot), g, slot);
            x in k'.mem && SameButLinks(k.mem[x], k'.mem[x]) && k'.ticks == k.ticks
  {
    hide InsertChild;
    var k1 := WithTcb(k, kind, g, quantum, slot);
    SpawnSetsUp(k, t, dead, kind, g, quantum, slot);
    InsertLinks(k1, t, g, slot, AtLeastOne(quantum), kind.Group?);
    InsertChildStill(k1, g, slot);
    assert InsertChild(k1, g, slot).mem[x] == Linking(k1.mem, t, g, slot, x);
  }

  ghost predicate SameButLinks(c: Tcb, c': Tcb) {
    c' == c.(next := c'.next, prev := c'.prev, head := c'.head, cursor := c'.cursor)
  }

  lemma ExitSleeps(k: State, t: Tree, dead: seq<Ptr>, x: Ptr)
    requires WellFormed(k, t, dead) && k.current != NULL && x in k.mem && x != k.current
    ensures x in ExitTask(k).mem && SameButLinks(k.mem[x], ExitTask(k).mem[x]) && ExitTask(k).ticks == k.ticks
  {
    hide ExitTask;
    ExitWellFormed(k, t, dead);
    ExitLinks(k, t);
    LeafInMemory(k, t, dead);
    ExitStill(k);
    assert ExitTask(k).mem[x] == Parting(k.mem, t, k.current, k.pending, x);
  }

  lemma ReclaimSleeps(k: State, t: Tree, dead: seq<Ptr>, pinned: set<Ptr>, x: Ptr)
    requires WellFormed(k, t, dead) && x in t.nodes
    ensures x in k.mem && x in ReclaimFinished(k, pinned).mem
    ensures SameButLinks(k.mem[x], ReclaimFinished(k, pinned).mem[x]) && ReclaimFinished(k, pinned).ticks == k.ticks
  {
    hide ReclaimFinished;
    ReclaimWellFormed(k, t, dead, pinned);
    assert Holds(k.mem, t, x) && Holds(ReclaimFinished(k, pinned).mem, t, x);
  }

  lemma SleeperIsInTree(k: State, t: Tree, dead: seq<Ptr>, x: Ptr, d: nat)
    requires WellFormed(k, t, dead) && Asleep(k, x, d)
    ensures x in t.nodes
  {
    BlockedAreLinked(k, t, dead);
  }

  /** One step of anybody else: the sleeper sleeps on, or this was its tick. */
  lemma SleepStep(k: State, t: Tree, dead: seq<Ptr>, x: Ptr, d: nat, s: Step)
    requires WellFormed(k, t, dead) && Allowed(k, s) && Asleep(k, x, d) && Undisturbed(k, s, x)
    ensures var k' := Apply(k, s);
            && x in k'.mem
            && if s.TickStep? && k.ticks + 1 == d then !k'.mem[x].state.Blocked? else Asleep(k', x, d)
  {
    hide WellFormed, OnTick, ScheduleNext, ExitTask, ReclaimFinished, InsertChild, Visited, Asleep;
    Sleeper(k, x, d);
    match s
    case TickStep =>
      TickSleeps(k, t, dead, x, d);
      OnTickWellFormed(k, t, dead);
      SwitchSleeps(OnTick(k), t, dead, x);
      if k.ticks + 1 != d { Sleeper(OnTick(k), x, d); Sleeper(Apply(k, s), x, d); }
    case SwitchStep =>
      SwitchSleeps(k, t, dead, x);
      Sleeper(Apply(k, s), x, d);
    case WakeStep(id) =>
      CallbacksIdempotent(0, id, 0);
      SweepExact(k.mem, Visited(k), WakeOne(id), x);
      Sleeper(Apply(k, s), x, d);
    case ReleaseStep(resource) =>
      CallbacksIdempotent(0, 0, resource);
      SweepExact(k.mem, Visited(k), ReleaseOne(resource), x);
      Sleeper(Apply(k, s), x, d);
    case WakeFirstStep(resource) =>
      FirstWaiterWaits(k.mem, Visited(k), resource);
      assert NULL !in k.mem by { Structure(k, t, dead); }
      Sleeper(Apply(k, s), x, d);
    case SpawnStep(g, quantum, Granted(slot)) =>
      GroupsAreInTree(k, t, dead, g);
      SpawnSleeps(k, t, dead, Leaf, g, quantum, slot, x);
      Sleeper(Apply(k, s), x, d);
    case SpawnGroupStep(g, quantum, Granted(slot)) =>
      GroupsAreInTree(k, t, dead, g);
      SpawnSleeps(k, t, dead, Group, g, quantum, slot, x);
      Sleeper(Apply(k, s), x, d);
    case ExitStep =>
      ExitSleeps(k, t, dead, x);
      Sleeper(Apply(k, s), x, d);
    case ReclaimStep(pinned) =>
      SleeperIsInTree(k, t, dead, x, d);
      ReclaimSleeps(k, t, dead, pinned, x);
      Sleeper(Apply(k, s), x, d);
    case _ =>
      Sleeper(Apply(k, s), x, d);
  }

  lemma Sleeper(k: State, x: Ptr, d: nat)
    ensures Asleep(k, x, d) <==> x in k.mem && k.mem[x].kind.Leaf? && k.mem[x].state.Blocked?
                                 && k.mem[x].deadline == d && k.ticks < d
  {
  }

  // ----- the run

  ghost predicate LeftAlone(k: State, steps: seq<Step>, x: Ptr) {
    forall i | 0 <= i < |steps| :: x in Run(k, steps[..i]).mem && Undisturbed(Run(k, steps[..i]), steps[i], x)
  }

  /** A task asleep until tick d, left alone by everybody but the clock, is blocked at every
      moment before tick d and awake the moment tick d is done: not a tick early, not a tick
      late, whatever is spawned, run, blocked or freed meanwhile. */
  lemma {:induction false} SleepIsExact(k: State, t: Tree, dead: seq<Ptr>, x: Ptr, d: nat, steps: seq<Step>)
    returns (t': Tree, dead': seq<Ptr>)
    requires WellFormed(k, t, dead) && Asleep(k, x, d) && Legal(k, steps) && LeftAlone(k, steps, x)
    requires forall i | 0 <= i < |steps| :: Run(k, steps[..i]).ticks < d
    ensures WellFormed(Run(k, steps), t', dead')
    ensures var k' := Run(k, steps);
            x in k'.mem && if k'.ticks < d then Asleep(k', x, d) else k'.ticks == d && !k'.mem[x].state.Blocked?
  {
    hide WellFormed, Apply, Asleep, Undisturbed;
    Sleeper(k, x, d);
    if steps == [] {
      t', dead' := t, dead;
    } else {
      var before, s := steps[..|steps| - 1], steps[|steps| - 1];
      LegalPrefix(k, steps);
      forall i | 0 <= i < |before|
        ensures x in Run(k, before[..i]).mem && Undisturbed(Run(k, before[..i]), before[i], x)
        ensures Run(k, before[..i]).ticks < d
      {
        assert before[..i] == steps[..i];
      }
      t', dead' := SleepIsExact(k, t, dead, x, d, before);
      var mid := Run(k, before);
      assert mid.ticks < d && Undisturbed(mid, s, x);
      TicksGrow(mid, s);
      SleepStep(mid, t', dead', x, d, s);
      Sleeper(Apply(mid, s), x, d);
      StepWellFormed(mid, t', dead', s);
      t', dead' := TreeAfter(mid, t', dead', s), DeadAfter(mid, dead', s);
    }
  }
}
