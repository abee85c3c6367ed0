/**
  What a switch writes into the two tasks it is between, and why nobody but the current task
  is ever marked running.
 */
module Handover {
  import opened Tree
  import opened Memory
  import opened Dispatch
  import opened Walk
  import opened Lifecycle
  import opened Blocking
  import opened Soundness
  import opened Invariant
  import opened Books
  import opened Runs
  import opened Deadlines
  import opened Conserve
  import opened Choice
  import opened Ledger
  import Growth
  import Departure

  /** The dispatched task runs, a displaced task that was running is ready again, and
      everybody else's state, and every other field, is as it was; a task that keeps the CPU
      is left alone. */
  ghost predicate HandedOver(m: Mem, m': Mem, cur: Ptr, next: Ptr) {
    && m'.Keys == m.Keys
    && forall x {:trigger m'[x]} | x in m ::
         && m'[x] == m[x].(state := m'[x].state)
         && m'[x].state == (if next == NULL || next == cur then m[x].state
                            else if x == next then Running
                            else if x == cur && m[x].state.Running? then Ready
                            else m[x].state)
  }

  ghost predicate SameStates(m: Mem, m': Mem) {
    m'.Keys == m.Keys && forall x {:trigger m'[x]} | x in m :: m'[x].state == m[x].state
  }

  /** One switch in full: the choice, then the hand-over; the switch is counted if and only if
      the CPU changes hands, and finding nobody leaves everything but cursors and quanta
      alone. */
  ghost predicate Switched(k: State, k': State, t: Tree, next: Ptr, m: Mem, s: Search)
    requires Valid(t)
  {
    && Decided(k.mem, m, t, k.current, next, s)
    && SameStates(k.mem, m)
    && HandedOver(m, k'.mem, k.current, next)
    && k' == k.(mem := k'.mem, current := if next == NULL then k.current else next,
                switches := if next == NULL || next == k.current then k.switches else k.switches + 1)
  }

  lemma SwitchNames(k: State, t: Tree, dead: seq<Ptr>) returns (m: Mem, s: Search)
    requires WellFormed(k, t, dead)
    ensures Valid(t)
    ensures var (k', next) := ScheduleNext(k);
            Switched(k, k', t, next, m, s)
  {
    hide PickNextLeaf, Decided, Stepped;
    ScheduleNullIsPickNull(k, t, dead);
    RepresentsValid(k.mem, t);
    s := PickNames(k.mem, t, k.current, WalkLimit(k.nodes));
    PickOffers(k.mem, t, k.current, WalkLimit(k.nodes));
    assert k.root == t.root && (k.current != NULL ==> Linked(k.mem, k.current)) by { CurrentIsLinked(k, t, dead); }
    var (m1, next) := PickNextLeaf(k.mem, t.root, k.current, WalkLimit(k.nodes));
    m := m1;
    SteppedStates(k.mem, m, t);
    SteppedHolds(k.mem, m, t);
    if next != NULL {
      KindKnown(m, t, next);
    }
    assert NULL !in m;
    HandOverStates(m, k.current, next);
  }

  lemma CurrentIsLinked(k: State, t: Tree, dead: seq<Ptr>)
    requires WellFormed(k, t, dead)
    ensures k.root == t.root && (k.current != NULL ==> Linked(k.mem, k.current))
  {
    if k.current != NULL {
      LinkedLeaf(k.mem, t, k.current);
    }
  }

  lemma SteppedStates(m: Mem, m': Mem, t: Tree)
    requires Stepped(m, m', t)
    ensures SameStates(m, m')
  {
    forall x | x in m ensures m'[x].state == m[x].state {
      assert SteppedNode(m[x], m'[x], t, x);
    }
  }

  lemma HandOverStates(m: Mem, cur: Ptr, next: Ptr)
    requires NULL !in m
    ensures HandedOver(m, m, cur, NULL) && HandedOver(m, m, cur, cur)
    ensures next in m && next != cur ==> HandedOver(m, HandOver(m, cur, next), cur, next)
  {
  }

  /** A finished task that still stands as current counts as nobody. */
  lemma FinishedIsNobody(k: State)
    requires k.current in k.mem && !Linked(k.mem, k.current) && NULL !in k.mem
    ensures ScheduleNext(k) == ScheduleNext(k.(current := NULL))
  {
    hide PickNextLeaf;
  }

  // ----- every run

  /** Nobody is marked running but the current task. */
  ghost predicate OnlyCurrentRuns(k: State) {
    forall x {:trigger k.mem[x]} | x in k.mem && k.mem[x].state.Running? :: x == k.current
  }

  lemma SwitchRuns(k: State, t: Tree, dead: seq<Ptr>)
    requires WellFormed(k, t, dead) && OnlyCurrentRuns(k)
    ensures OnlyCurrentRuns(ScheduleNext(k).0)
  {
    hide WellFormed, Decided, ScheduleNext;
    TreeIsValid(k, t, dead);
    var m, s := SwitchNames(k, t, dead);
    var (k', next) := ScheduleNext(k);
    assert Switched(k, k', t, next, m, s);
    forall x | x in k'.mem && k'.mem[x].state.Running? ensures x == k'.current {
      assert x in m && x in k.mem && m[x].state == k.mem[x].state;
    }
  }

  /** No block came to run. */
  ghost predicate NoneStarted(m: Mem, m': Mem) {
    forall x {:trigger m'[x]} | x in m' && m'[x].state.Running? :: x in m && m[x].state.Running?
  }

  lemma SweepStarts(m: Mem, visited: seq<Ptr>, f: Tcb -> Tcb)
    requires Rouses(f)
    ensures NoneStarted(m, Sweep(m, visited, f))
  {
    SweepRouses(m, visited, f);
    var m' := Sweep(m, visited, f);
    forall x | x in m' && m'[x].state.Running? ensures x in m && m[x].state.Running? {
      assert RousedNode(m[x], m'[x]);
    }
  }

  lemma TickStarts(k: State, t: Tree, dead: seq<Ptr>)
    requires WellFormed(k, t, dead)
    ensures NoneStarted(k.mem, OnTick(k).mem) && OnTick(k).current == k.current
  {
    hide Visited, DrainPath, Rouses, WellFormed, Sweep;
    var mid := SweepState(k);
    MidwayKeys(k, t, dead);
    CallbacksRouse(mid.ticks, 0, 0);
    SweepStarts(mid.mem, Visited(mid), ExpireOne(mid.ticks));
    assert forall x | x in k.mem :: mid.mem[x].state == k.mem[x].state;
  }

  lemma StartsNobody(k: State, k': State)
    requires OnlyCurrentRuns(k) && NoneStarted(k.mem, k'.mem) && k'.current == k.current
    ensures OnlyCurrentRuns(k')
  {
  }

  lemma WakesStart(k: State, t: Tree, dead: seq<Ptr>, id: nat, resource: nat)
    requires WellFormed(k, t, dead)
    ensures NoneStarted(k.mem, WakeTask(k, id).mem)
    ensures NoneStarted(k.mem, WakeBlockedOn(k, resource).mem)
    ensures NoneStarted(k.mem, WakeFirstBlockedOn(k, resource).0.mem)
    ensures WakeTask(k, id).current == WakeBlockedOn(k, resource).current == WakeFirstBlockedOn(k, resource).0.current == k.current
  {
    hide WellFormed, Visited, Rouses;
    CallbacksRouse(0, id, resource);
    SweepStarts(k.mem, Visited(k), WakeOne(id));
    SweepStarts(k.mem, Visited(k), ReleaseOne(resource));
  }

  lemma SpawnStarts(k: State, t: Tree, dead: seq<Ptr>, kind: Kind, g: Ptr, quantum: nat, slot: Ptr)
    requires WellFormed(k, t, dead) && g in t.kids && slot != NULL && slot !in k.mem
    ensures var k' := InsertChild(WithTcb(k, kind, g, quantum, slot), g, slot);
            NoneStarted(k.mem, k'.mem) && k'.current == k.current
  {
    hide InsertChild, WellFormed;
    var k1 := WithTcb(k, kind, g, quantum, slot);
    var k' := InsertChild(k1, g, slot);
    SpawnKeeps(k, t, dead, kind, g, quantum, slot);
    InsertChildStill(k1, g, slot);
    NewcomerIsReady(k, t, dead, kind, g, quantum, slot);
    forall x | x in k'.mem && k'.mem[x].state.Running? ensures x in k.mem && k.mem[x].state.Running? {
      if x in k.mem {
        SpawnSleeps(k, t, dead, kind, g, quantum, slot, x);
      }
    }
  }

  lemma NewcomerIsReady(k: State, t: Tree, dead: seq<Ptr>, kind: Kind, g: Ptr, quantum: nat, slot: Ptr)
    requires WellFormed(k, t, dead) && g in t.kids && slot != NULL && slot !in k.mem
    ensures var k1 := WithTcb(k, kind, g, quantum, slot);
            var k' := InsertChild(k1, g, slot);
            slot in k'.mem && SameButLinks(k1.mem[slot], k'.mem[slot])
  {
    hide InsertChild;
    var k1 := WithTcb(k, kind, g, quantum, slot);
    SpawnSetsUp(k, t, dead, kind, g, quantum, slot);
    Growth.InsertLinks(k1, t, g, slot, AtLeastOne(quantum), kind.Group?);
    assert InsertChild(k1, g, slot).mem[slot] == Growth.Linking(k1.mem, t, g, slot, slot);
  }

  lemma ExitStarts(k: State, t: Tree, dead: seq<Ptr>)
    requires WellFormed(k, t, dead) && OnlyCurrentRuns(k) && k.current != NULL
    ensures OnlyCurrentRuns(ExitTask(k))
  {
    hide ExitTask, WellFormed, IsLeaf;
    ExitGraveyard(k, t, dead) by { ExitWellFormed(k, t, dead); }
    var k' := ExitTask(k);
    forall x | x in k'.mem && k'.mem[x].state.Running? ensures false {
      if x != k.current {
        ExitSleeps(k, t, dead, x);
      } else {
        LeaverIsDead(k, t, dead);
      }
    }
  }

  lemma LeaverIsDead(k: State, t: Tree, dead: seq<Ptr>)
    requires WellFormed(k, t, dead) && k.current != NULL
    ensures k.current in ExitTask(k).mem && ExitTask(k).mem[k.current].state.Dead?
  {
    hide ExitTask;
    ExitWellFormed(k, t, dead);
    var dead' := [k.current] + dead;
    assert k.current == dead'[0] && k.current in dead';
    assert Buried(ExitTask(k).mem, Departure.Pruned(t, k.current), k.current);
  }

  lemma StepRuns(k: State, t: Tree, dead: seq<Ptr>, s: Step)
    requires WellFormed(k, t, dead) && OnlyCurrentRuns(k) && Allowed(k, s)
    ensures OnlyCurrentRuns(Apply(k, s))
  {
    hide WellFormed, OnTick, ScheduleNext, ExitTask, ReclaimFinished, InsertChild, OnlyCurrentRuns,
         WakeTask, WakeBlockedOn, WakeFirstBlockedOn;
    match s
    case TickStep =>
      TickStarts(k, t, dead);
      StartsNobody(k, OnTick(k));
      OnTickWellFormed(k, t, dead);
      SwitchRuns(OnTick(k), t, dead);
    case SwitchStep => SwitchRuns(k, t, dead);
    case WakeStep(id) => WakesStart(k, t, dead, id, 0); StartsNobody(k, Apply(k, s));
    case ReleaseStep(resource) => WakesStart(k, t, dead, 0, resource); StartsNobody(k, Apply(k, s));
    case WakeFirstStep(resource) => WakesStart(k, t, dead, 0, resource); StartsNobody(k, Apply(k, s));
    case SpawnStep(g, quantum, supply) =>
      if supply.Granted? {
        GroupsAreInTree(k, t, dead, g);
        SpawnStarts(k, t, dead, Leaf, g, quantum, supply.slot);
      }
      StartsNobody(k, Apply(k, s));
    case SpawnGroupStep(g, quantum, supply) =>
      if supply.Granted? {
        GroupsAreInTree(k, t, dead, g);
        SpawnStarts(k, t, dead, Group, g, quantum, supply.slot);
      }
      StartsNobody(k, Apply(k, s));
    case ExitStep => ExitStarts(k, t, dead);
    case ReclaimStep(pinned) =>
      ReclaimWellFormed(k, t, dead, pinned);
      StartsNobody(k, Apply(k, s));
    case _ => StartsNobody(k, Apply(k, s));
  }

  /** In every state the kernel can reach from init, a task marked running is the current
      one. */
  lemma {:induction false} RunningIsCurrent(r: Ptr, a: Ptr, steps: seq<Step>)
    requires r != NULL && a != NULL && r != a && Legal(Init(r, a), steps)
    ensures OnlyCurrentRuns(Run(Init(r, a), steps))
  {
    hide OnlyCurrentRuns, Apply, Init, WellFormed;
    if steps == [] {
      assert OnlyCurrentRuns(Init(r, a)) by { InitRuns(r, a); }
    } else {
      var before, s := steps[..|steps| - 1], steps[|steps| - 1];
      LegalPrefix(Init(r, a), steps);
      RunningIsCurrent(r, a, before);
      var t, dead := RunWellFormed(r, a, before);
      StepRuns(Run(Init(r, a), before), t, dead, s);
    }
  }

  lemma InitRuns(r: Ptr, a: Ptr)
    requires r != a
    ensures OnlyCurrentRuns(Init(r, a))
  {
  }
}
