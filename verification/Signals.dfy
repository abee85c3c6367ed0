/**
  event::Signal: no wake-up is lost.

  One task x waits on a signal, by any number of set, take and deliver sections in any
  order, over the real kernel: between any two of them the others may tick, switch, spawn,
  wake, expire and exit as they like.
 */
module Signals {
  import opened Tree
  import opened Memory
  import opened Walk
  import opened Lifecycle
  import opened Blocking
  import opened Invariant
  import opened Books
  import opened Runs
  import opened Dispatch
  import opened Ledger
  import opened WalkOrder
  import opened Deadlines
  import opened Foreign
  import Executor

  datatype Signal = Signal(raised: bool, waiter: nat)

  // ----- the critical sections

  /** The first half of set: raise the flag, claim the registered waiter.  The claimed id is
      woken by a separate section (zero: nobody to wake). */
  function SetSection(sig: Signal): (Signal, nat) { (Signal(true, 0), sig.waiter) }

  function TryTake(sig: Signal): (Signal, bool) { (sig.(raised := false), sig.raised) }

  function CurrentId(k: State): nat { if k.current in k.mem then k.mem[k.current].id else 0 }

  /** One turn of wait's loop: consume the flag, or register and block, in one section. */
  function WaitSection(k: State, sig: Signal, deadline: nat): (State, Signal, BlockOutcome) {
    var me := CurrentId(k);
    var (k', outcome) := BlockUnless(k, me, deadline, sig.raised);
    (k', ConsumeOrRegister(sig, me), outcome)
  }

  function ConsumeOrRegister(sig: Signal, me: nat): Signal {
    if sig.raised then sig.(raised := false) else sig.(waiter := me)
  }

  /** That section in full: a raised flag is consumed and nobody blocks; under a lowered one the
      caller is registered and blocks on its own id until the deadline, unless that is past. */
  ghost predicate WaitEffect(k: State, sig: Signal, deadline: nat, k': State, sig': Signal, outcome: BlockOutcome) {
    var id := if k.current in k.mem then k.mem[k.current].id else 0;
    if sig.raised then outcome == ReadyNow && k' == k && sig' == Signal(false, sig.waiter)
    else sig' == Signal(false, id) && BlockEffect(k, id, deadline, k', outcome)
  }

  lemma WaitExact(k: State, sig: Signal, deadline: nat)
    ensures var (k', sig', outcome) := WaitSection(k, sig, deadline);
            WaitEffect(k, sig, deadline, k', sig', outcome)
  {
  }

  // ----- the protocol

  /** ok says whether the last wait consumed the signal or timed out. */
  datatype Phase = Outside | InWait(deadline: nat) | Returned(deadline: nat, ok: bool)

  /** wakes: ids claimed by set whose wake has not been delivered yet. */
  datatype World = World(k: State, sig: Signal, phase: Phase, wakes: multiset<nat>)

  datatype Move =
    | Enter(deadline: nat)
    | Turn
    | Set
    | Deliver(id: nat)
    | Take
    | Kernel(s: Step)

  /** x runs its own sections only while it has the CPU and is not blocked, it does nothing
      else inside wait, and the walk of a delivery to x reaches x (see Deadlines.VisitedCovers
      and Deadlines.WakeReachesExactly for when it does). */
  ghost predicate Enabled(w: World, x: Ptr, a: Move)
    requires x in w.k.mem
  {
    match a
    case Enter(_) => !w.phase.InWait? && w.k.current == x && !w.k.mem[x].state.Blocked?
    case Turn => w.phase.InWait? && w.k.current == x && !w.k.mem[x].state.Blocked?
    case Set => true
    case Deliver(id) => id in w.wakes && (id == w.k.mem[x].id ==> x in Visited(w.k))
    case Take => true
    case Kernel(s) => Allowed(w.k, s) && (Others(w.k, s, x) || (!w.phase.InWait? && !s.ExitStep?))
  }

  function Act(w: World, a: Move): World {
    match a
    case Enter(deadline) => w.(phase := InWait(deadline))
    case Turn =>
      if !w.phase.InWait? then w
      else
        var d := w.phase.deadline;
        var (k, sig, outcome) := WaitSection(w.k, w.sig, d);
        w.(k := k, sig := sig, phase := if outcome.BlockedNow? then w.phase else Returned(d, outcome.ReadyNow?))
    case Set =>
      var (sig, id) := SetSection(w.sig);
      w.(sig := sig, wakes := if id != 0 then w.wakes + multiset{id} else w.wakes)
    case Deliver(id) => w.(k := WakeTask(w.k, id), wakes := w.wakes - multiset{id})
    case Take => w.(sig := TryTake(w.sig).0)
    case Kernel(s) => w.(k := Apply(w.k, s))
  }

  ghost function TreeNext(w: World, t: Tree, dead: seq<Ptr>, a: Move): Tree
    requires WellFormed(w.k, t, dead) && (a.Kernel? ==> Allowed(w.k, a.s))
  {
    if a.Kernel? then TreeAfter(w.k, t, dead, a.s) else t
  }

  ghost function DeadNext(w: World, dead: seq<Ptr>, a: Move): seq<Ptr> {
    if a.Kernel? then DeadAfter(w.k, dead, a.s) else dead
  }

  // ----- the invariant

  /** If x is blocked in wait, then a wake for it is in flight, or it is the registered
      waiter and the flag is down. */
  ghost predicate NotLost(w: World, x: Ptr)
    requires x in w.k.mem
  {
    w.phase.InWait? && w.k.mem[x].state.Blocked? ==>
      w.k.mem[x].id in w.wakes || (w.sig.waiter == w.k.mem[x].id && !w.sig.raised)
  }

  /** If x is blocked in wait, then on its own id and until exactly the deadline it asked for;
      and a wait that timed out had a deadline and it is past. */
  ghost predicate Timely(w: World, x: Ptr)
    requires x in w.k.mem
  {
    && (w.phase.InWait? && w.k.mem[x].state.Blocked? ==>
          WaitsFor(w.k.mem[x], w.k.mem[x].id) && w.k.mem[x].deadline == w.phase.deadline)
    && (w.phase.Returned? && !w.phase.ok ==> 0 < w.phase.deadline <= w.k.ticks)
  }

  ghost predicate Sound(w: World, t: Tree, dead: seq<Ptr>, x: Ptr) {
    && WellFormed(w.k, t, dead)
    && IsLeaf(t, x)
    && x in w.k.mem && w.k.mem[x].id != 0
    && NotLost(w, x)
    && Timely(w, x)
  }

  lemma TurnIsSound(w: World, t: Tree, dead: seq<Ptr>, x: Ptr)
    requires Sound(w, t, dead, x) && Enabled(w, x, Turn)
    ensures Sound(Act(w, Turn), t, dead, x)
  {
    hide WellFormed;
    BlockWellFormed(w.k, t, dead, CurrentId(w.k), w.phase.deadline);
  }

  lemma DeliverIsSound(w: World, t: Tree, dead: seq<Ptr>, x: Ptr, id: nat)
    requires Sound(w, t, dead, x) && Enabled(w, x, Deliver(id))
    ensures Sound(Act(w, Deliver(id)), t, dead, x)
    ensures id == w.k.mem[x].id ==> !Act(w, Deliver(id)).k.mem[x].state.Blocked?
  {
    hide WellFormed, Visited, OthersMade;
    WakesWellFormed(w.k, t, dead, id, 0);
    OthersOnlyWake(w.k, t, dead, WakeStep(id), x);
    OthersGive(w.k.mem[x], Apply(w.k, WakeStep(id)).mem[x]);
    if id == w.k.mem[x].id {
      RootInMemory(w.k, t, dead);
      CallbacksIdempotent(0, id, 0);
      SweepExact(w.k.mem, Visited(w.k), WakeOne(id), x);
    }
  }

  lemma OthersGive(c: Tcb, c': Tcb)
    requires OthersMade(c, c')
    ensures c'.id == c.id
    ensures c'.state.Blocked? ==>
              c.state.Blocked? && c'.woken == c.woken && c'.deadline == c.deadline && c'.blockedOn == c.blockedOn
    ensures !c.state.Blocked? ==> c'.deadline == c.deadline && (c.woken ==> c'.woken)
  {
  }

  lemma KernelIsSound(w: World, t: Tree, dead: seq<Ptr>, x: Ptr, s: Step)
    requires Sound(w, t, dead, x) && Enabled(w, x, Kernel(s))
    ensures Sound(Act(w, Kernel(s)), TreeAfter(w.k, t, dead, s), DeadAfter(w.k, dead, s), x)
  {
    hide WellFormed, OthersMade, Apply, TreeAfter;
    StepWellFormed(w.k, t, dead, s);
    TicksGrow(w.k, s);
    if Others(w.k, s, x) {
      OthersOnlyWake(w.k, t, dead, s, x);
      OthersGive(w.k.mem[x], Apply(w.k, s).mem[x]);
    } else {
      OwnSections(w.k, t, dead, s, x);
    }
  }

  lemma OwnSections(k: State, t: Tree, dead: seq<Ptr>, s: Step, x: Ptr)
    requires WellFormed(k, t, dead) && Allowed(k, s) && OwnStep(s) && !s.ExitStep? && x in k.mem
    ensures x in Apply(k, s).mem && Apply(k, s).mem[x].id == k.mem[x].id
    ensures TreeAfter(k, t, dead, s) == t
  {
  }

  lemma ActIsSound(w: World, t: Tree, dead: seq<Ptr>, x: Ptr, a: Move)
    requires Sound(w, t, dead, x) && Enabled(w, x, a)
    ensures Sound(Act(w, a), TreeNext(w, t, dead, a), DeadNext(w, dead, a), x)
  {
    hide WellFormed;
    match a
    case Turn => TurnIsSound(w, t, dead, x);
    case Deliver(id) => DeliverIsSound(w, t, dead, x, id);
    case Kernel(s) => KernelIsSound(w, t, dead, x, s);
    case _ =>
  }

  function Play(w: World, moves: seq<Move>): World {
    if moves == [] then w else Act(Play(w, moves[..|moves| - 1]), moves[|moves| - 1])
  }

  /** Every move is enabled where it is made. */
  ghost predicate Playable(w: World, x: Ptr, moves: seq<Move>) {
    forall i | 0 <= i < |moves| :: x in Play(w, moves[..i]).k.mem ==> Enabled(Play(w, moves[..i]), x, moves[i])
  }

  /** No lost wake-up, over every interleaving. */
  lemma {:induction false} NoLostWakeUp(w: World, t: Tree, dead: seq<Ptr>, x: Ptr, moves: seq<Move>)
    returns (t': Tree, dead': seq<Ptr>)
    requires Sound(w, t, dead, x) && Playable(w, x, moves)
    ensures Sound(Play(w, moves), t', dead', x)
    ensures var w' := Play(w, moves);
            x in w'.k.mem && NotLost(w', x) && Timely(w', x)
  {
    hide WellFormed, Act, Enabled, NotLost, Timely;
    if moves == [] {
      t', dead' := t, dead;
    } else {
      var before, a := moves[..|moves| - 1], moves[|moves| - 1];
      forall i | 0 <= i < |before| && x in Play(w, before[..i]).k.mem
        ensures Enabled(Play(w, before[..i]), x, before[i])
      {
        assert before[..i] == moves[..i];
      }
      t', dead' := NoLostWakeUp(w, t, dead, x, before);
      var mid := Play(w, before);
      assert moves[..|moves| - 1] == before && Enabled(mid, x, a);
      KernelMovesAllowed(mid, x, a);
      ActIsSound(mid, t', dead', x, a);
      t', dead' := TreeNext(mid, t', dead', a), DeadNext(mid, dead', a);
    }
  }

  lemma KernelMovesAllowed(w: World, x: Ptr, a: Move)
    requires x in w.k.mem && Enabled(w, x, a)
    ensures a.Kernel? ==> Allowed(w.k, a.s)
  {
  }

  /** A set while x waits always reaches it: once every claimed wake has been delivered, x
      is not left blocked beside a raised flag. */
  lemma RaisedFlagIsSeen(w: World, t: Tree, dead: seq<Ptr>, x: Ptr)
    requires Sound(w, t, dead, x) && w.sig.raised && w.wakes == multiset{}
    ensures !(w.phase.InWait? && w.k.mem[x].state.Blocked?)
  {
  }

  /** And a set that finds x blocked claims it on the spot. */
  lemma SetClaimsTheWaiter(w: World, t: Tree, dead: seq<Ptr>, x: Ptr)
    requires Sound(w, t, dead, x) && w.phase.InWait? && w.k.mem[x].state.Blocked?
    ensures w.k.mem[x].id in Act(w, Set).wakes
  {
  }

  /** So it is from init on: after any legal run a fresh signal loses no wake-up of any
      living task. */
  lemma NoLostWakeUpFromInit(r: Ptr, a: Ptr, steps: seq<Step>, x: Ptr, moves: seq<Move>)
    requires r != NULL && a != NULL && r != a && Legal(Init(r, a), steps)
    requires LivingTask(Run(Init(r, a), steps), x)
    requires Playable(World(Run(Init(r, a), steps), Signal(false, 0), Outside, multiset{}), x, moves)
    ensures var w := Play(World(Run(Init(r, a), steps), Signal(false, 0), Outside, multiset{}), moves);
            x in w.k.mem && NotLost(w, x) && Timely(w, x)
  {
    hide WellFormed, Run, Init, Play, Playable, NotLost, Timely;
    var t, dead := RunWellFormed(r, a, steps);
    var w := World(Run(Init(r, a), steps), Signal(false, 0), Outside, multiset{});
    LivingIsLeaf(w.k, t, dead, x);
    NobodyWaitsYet(w, x);
    t, dead := NoLostWakeUp(w, t, dead, x, moves);
  }

  lemma NobodyWaitsYet(w: World, x: Ptr)
    requires x in w.k.mem && w.phase.Outside?
    ensures NotLost(w, x) && Timely(w, x)
  {
  }

  // ----- on time

  /** A turn of the wait ends it with the signal if and only if it found the flag up, with a
      timeout if and only if it did not and the deadline is past, and otherwise blocks the task
      on its own id until that deadline, registered under a lowered flag. */
  lemma TurnDecides(w: World, t: Tree, dead: seq<Ptr>, x: Ptr)
    requires Sound(w, t, dead, x) && Enabled(w, x, Turn)
    ensures var w', d := Act(w, Turn), w.phase.deadline;
            var past := d != 0 && d <= w.k.ticks;
            && x in w'.k.mem
            && (w'.phase == Returned(d, true) <==> w.sig.raised)
            && (w'.phase == Returned(d, false) <==> !w.sig.raised && past)
            && (w'.phase == w.phase <==> !w.sig.raised && !past)
            && (w'.phase == w.phase ==>
                  && w'.k.mem[x].state.Blocked? && WaitsFor(w'.k.mem[x], w.k.mem[x].id) && w'.k.mem[x].deadline == d
                  && w'.sig == Signal(false, w.k.mem[x].id))
            && !w'.sig.raised
  {
    hide WellFormed;
  }

  /** The sweep of each tick reaches x. */
  ghost predicate Reached(w: World, x: Ptr, moves: seq<Move>) {
    forall i | 0 <= i < |moves| && moves[i] == Kernel(TickStep) :: x in Visited(SweepState(Play(w, moves[..i]).k))
  }

  /** While x is blocked in a wait with a deadline, that is still ahead. */
  ghost predicate OnTime(w: World, x: Ptr)
    requires x in w.k.mem
  {
    w.phase.InWait? && w.k.mem[x].state.Blocked? && w.phase.deadline != 0 ==> w.k.ticks < w.phase.deadline
  }

  lemma ActStaysOnTime(w: World, t: Tree, dead: seq<Ptr>, x: Ptr, a: Move)
    requires Sound(w, t, dead, x) && Enabled(w, x, a) && OnTime(w, x)
    requires a == Kernel(TickStep) ==> x in Visited(SweepState(w.k))
    ensures x in Act(w, a).k.mem && OnTime(Act(w, a), x)
  {
    hide WellFormed, Apply, Visited, SweepState, OthersMade;
    match a
    case Deliver(id) =>
      OthersOnlyWake(w.k, t, dead, WakeStep(id), x);
      OthersGive(w.k.mem[x], Apply(w.k, WakeStep(id)).mem[x]);
      DeliveryIsAStep(w, id);
    case Kernel(s) =>
      if w.phase.InWait? {
        OthersOnlyWake(w.k, t, dead, s, x);
        OthersGive(w.k.mem[x], Apply(w.k, s).mem[x]);
        LeafKind(w.k, t, dead, x);
        if s.TickStep? && w.k.mem[x].state.Blocked? && w.phase.deadline != 0 {
          Executor.TickKeepsSleep(w.k, t, dead, x, w.phase.deadline);
        }
        TicksGrow(w.k, s);
      } else {
        KernelIsSound(w, t, dead, x, s);
      }
    case _ =>
  }

  lemma DeliveryIsAStep(w: World, id: nat)
    ensures Act(w, Deliver(id)).k == Apply(w.k, WakeStep(id)) && Act(w, Deliver(id)).k.ticks == w.k.ticks
  {
  }

  lemma LeafKind(k: State, t: Tree, dead: seq<Ptr>, x: Ptr)
    requires WellFormed(k, t, dead) && IsLeaf(t, x)
    ensures x in k.mem && k.mem[x].kind.Leaf?
  {
    assert Holds(k.mem, t, x);
  }

  /** Provided the sweeps reach it, x is never left blocked in a wait past the deadline it asked
      for, whatever the others do. */
  lemma {:induction false} WaitsEndOnTime(w: World, t: Tree, dead: seq<Ptr>, x: Ptr, moves: seq<Move>)
    requires Sound(w, t, dead, x) && Playable(w, x, moves) && Reached(w, x, moves) && OnTime(w, x)
    ensures x in Play(w, moves).k.mem && OnTime(Play(w, moves), x)
  {
    hide WellFormed, Act, Enabled, NotLost, Timely, OnTime, SweepState, Visited;
    if moves != [] {
      var before, a := moves[..|moves| - 1], moves[|moves| - 1];
      forall i | 0 <= i < |before|
        ensures x in Play(w, before[..i]).k.mem ==> Enabled(Play(w, before[..i]), x, before[i])
        ensures before[i] == Kernel(TickStep) ==> x in Visited(SweepState(Play(w, before[..i]).k))
      {
        assert before[..i] == moves[..i];
      }
      WaitsEndOnTime(w, t, dead, x, before);
      var t', dead' := NoLostWakeUp(w, t, dead, x, before);
      assert moves[..|moves| - 1] == before && Enabled(Play(w, before), x, a);
      ActStaysOnTime(Play(w, before), t', dead', x, a);
    }
  }

  lemma WaitsEndOnTimeFromInit(r: Ptr, a: Ptr, steps: seq<Step>, x: Ptr, moves: seq<Move>)
    requires r != NULL && a != NULL && r != a && Legal(Init(r, a), steps)
    requires LivingTask(Run(Init(r, a), steps), x)
    requires var w := World(Run(Init(r, a), steps), Signal(false, 0), Outside, multiset{});
             Playable(w, x, moves) && Reached(w, x, moves)
    ensures var w := Play(World(Run(Init(r, a), steps), Signal(false, 0), Outside, multiset{}), moves);
            x in w.k.mem && OnTime(w, x)
  {
    hide WellFormed, Run, Init, Play, Playable, NotLost, Timely, Reached;
    var t, dead := RunWellFormed(r, a, steps);
    var w := World(Run(Init(r, a), steps), Signal(false, 0), Outside, multiset{});
    LivingIsLeaf(w.k, t, dead, x);
    NobodyWaitsYet(w, x);
    WaitsEndOnTime(w, t, dead, x, moves);
  }
}
