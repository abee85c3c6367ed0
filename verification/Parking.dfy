/**
  event::park and WaitQueue::wait: a loop around one section that takes the wake flag or
  blocks, with anything the others do in between.
 */
module Parking {
  import opened Tree
  import opened Memory
  import opened Dispatch
  import opened Walk
  import opened Lifecycle
  import opened Blocking
  import opened Growth
  import opened Soundness
  import opened Invariant
  import opened Books
  import opened Runs
  import opened Ledger
  import opened Deadlines
  import opened Foreign
  import Executor

  // ----- what raises a wake flag

  /** s calls x: it wakes it by id, or hands it a queue's wake. */
  predicate Calls(k: State, s: Step, x: Ptr)
    requires x in k.mem
  {
    match s
    case WakeStep(id) => id == k.mem[x].id && id != 0 && k.root in k.mem && x in Visited(k)
    case WakeFirstStep(resource) => k.root in k.mem && FirstWaiter(k.mem, Visited(k), resource) == x
    case _ => false
  }

  /** The flag is up if it was or if there was a call, a call leaves nobody blocked, and who
      stays blocked stays so on the same resource. */
  ghost predicate Heard(c: Tcb, c': Tcb, called: bool) {
    && c'.woken == (c.woken || called)
    && (c'.state.Blocked? ==> c'.blockedOn == c.blockedOn && !called)
  }

  lemma HeardOnce(a: Tcb, b: Tcb, c: Tcb)
    requires Heard(a, b, false) && Heard(b, c, false) && (c.state.Blocked? ==> b.state.Blocked?)
    ensures Heard(a, c, false)
  {
  }

  lemma SameIsUnheard(c: Tcb, c': Tcb)
    requires SameButLinks(c, c')
    ensures Heard(c, c', false)
  {
  }

  lemma SwitchCallsNobody(k: State, t: Tree, dead: seq<Ptr>, x: Ptr)
    requires WellFormed(k, t, dead) && x in k.mem
    ensures x in ScheduleNext(k).0.mem && Heard(k.mem[x], ScheduleNext(k).0.mem[x], false)
    ensures ScheduleNext(k).0.mem[x].state.Blocked? ==> k.mem[x].state.Blocked?
  {
    hide PickNextLeaf, WellFormed, Represents;
    Structure(k, t, dead);
    var limit := WalkLimit(k.nodes);
    if k.current != NULL {
      LinkedLeaf(k.mem, t, k.current);
    }
    PickOffers(k.mem, t, k.current, limit);
    var (m, next) := PickNextLeaf(k.mem, t.root, k.current, limit);
    assert SteppedNode(k.mem[x], m[x], t, x);
  }

  lemma TickCallsNobody(k: State, t: Tree, dead: seq<Ptr>, x: Ptr)
    requires WellFormed(k, t, dead) && x in k.mem
    ensures x in OnTick(k).mem && Heard(k.mem[x], OnTick(k).mem[x], false)
    ensures OnTick(k).mem[x].state.Blocked? ==> k.mem[x].state.Blocked?
  {
    hide Visited, DrainPath;
    var mid := SweepState(k);
    MidwayKeys(k, t, dead);
    CallbacksIdempotent(mid.ticks, 0, 0);
    SweepExact(mid.mem, Visited(mid), ExpireOne(mid.ticks), x);
  }

  /** Of all the steps others can take, exactly the calls raise a task's flag. */
  lemma OnlyCallsAreHeard(k: State, t: Tree, dead: seq<Ptr>, s: Step, x: Ptr)
    requires WellFormed(k, t, dead) && Allowed(k, s) && Others(k, s, x) && IsLeaf(t, x)
    ensures x in k.mem && x in Apply(k, s).mem
    ensures Heard(k.mem[x], Apply(k, s).mem[x], Calls(k, s, x))
  {
    hide WellFormed, OnTick, ScheduleNext, ExitTask, ReclaimFinished, InsertChild, Visited, Heard;
    InTreeInMemory(k, t, dead, x);
    assert NULL !in k.mem && k.root in k.mem by { Structure(k, t, dead); RootInMemory(k, t, dead); }
    match s
    case TickStep =>
      TickCallsNobody(k, t, dead, x);
      OnTickWellFormed(k, t, dead);
      SwitchCallsNobody(OnTick(k), t, dead, x);
      HeardOnce(k.mem[x], OnTick(k).mem[x], Apply(k, s).mem[x]);
    case SwitchStep => SwitchCallsNobody(k, t, dead, x);
    case WakeStep(id) => WakeIsHeard(k, id, x);
    case ReleaseStep(resource) => ReleaseIsUnheard(k, resource, x);
    case WakeFirstStep(resource) => HandOverIsHeard(k, resource, x);
    case SpawnStep(g, quantum, supply) =>
      SameIsUnheard(k.mem[x], k.mem[x]);
      if supply.Granted? {
        GroupsAreInTree(k, t, dead, g);
        SpawnSleeps(k, t, dead, Leaf, g, quantum, supply.slot, x);
        SameIsUnheard(k.mem[x], Apply(k, s).mem[x]);
      }
    case SpawnGroupStep(g, quantum, supply) =>
      SameIsUnheard(k.mem[x], k.mem[x]);
      if supply.Granted? {
        GroupsAreInTree(k, t, dead, g);
        SpawnSleeps(k, t, dead, Group, g, quantum, supply.slot, x);
        SameIsUnheard(k.mem[x], Apply(k, s).mem[x]);
      }
    case ExitStep =>
      ExitSleeps(k, t, dead, x);
      SameIsUnheard(k.mem[x], ExitTask(k).mem[x]);
    case ReclaimStep(pinned) =>
      ReclaimSleeps(k, t, dead, pinned, x);
      SameIsUnheard(k.mem[x], ReclaimFinished(k, pinned).mem[x]);
    case _ => SameIsUnheard(k.mem[x], Apply(k, s).mem[x]);
  }

  lemma WakeIsHeard(k: State, id: nat, x: Ptr)
    requires x in k.mem && k.root in k.mem
    ensures x in WakeTask(k, id).mem && Heard(k.mem[x], WakeTask(k, id).mem[x], Calls(k, WakeStep(id), x))
  {
    hide Visited;
    CallbacksIdempotent(0, id, 0);
    SweepExact(k.mem, Visited(k), WakeOne(id), x);
  }

  /** Releasing a resource unblocks its waiters without calling any of them. */
  lemma ReleaseIsUnheard(k: State, resource: nat, x: Ptr)
    requires x in k.mem && k.root in k.mem
    ensures x in WakeBlockedOn(k, resource).mem && Heard(k.mem[x], WakeBlockedOn(k, resource).mem[x], false)
  {
    hide Visited;
    CallbacksIdempotent(0, 0, resource);
    SweepExact(k.mem, Visited(k), ReleaseOne(resource), x);
  }

  lemma HandOverIsHeard(k: State, resource: nat, x: Ptr)
    requires x in k.mem && k.root in k.mem && NULL !in k.mem
    ensures x in WakeFirstBlockedOn(k, resource).0.mem
    ensures Heard(k.mem[x], WakeFirstBlockedOn(k, resource).0.mem[x], Calls(k, WakeFirstStep(resource), x))
  {
    hide Visited;
    FirstWaiterWaits(k.mem, Visited(k), resource);
  }

  // ----- the loop

  /** park waits on the task's own id, WaitQueue::wait on the queue's; ok says which of the two
      answers the wait gave. */
  datatype Pc = Outside | Waiting(resource: nat, deadline: nat) | Back(deadline: nat, ok: bool)

  /** called: somebody has called x since it last took its flag; answered: what that was when
      the last section ran. */
  datatype World = World(k: State, pc: Pc, called: bool, answered: bool)

  datatype Move = Begin(resource: nat, deadline: nat) | Section | Resume | Kernel(s: Step)

  /** x runs its sections only on the CPU, and the sweep of each tick reaches x. */
  ghost predicate Enabled(w: World, x: Ptr, a: Move)
    requires x in w.k.mem
  {
    match a
    case Begin(_, _) => w.pc.Outside? && OnCpu(w.k, x)
    case Section => w.pc.Waiting? && OnCpu(w.k, x)
    case Resume => w.pc.Back? && OnCpu(w.k, x)
    case Kernel(s) =>
      && Allowed(w.k, s)
      && (Others(w.k, s, x) || (!w.pc.Waiting? && !s.ExitStep?))
      && (s.TickStep? ==> x in Visited(SweepState(w.k)))
  }

  /** One turn of the loop: the flag is taken, or the task blocks, in one section. */
  function Turn(k: State, resource: nat, deadline: nat): (State, BlockOutcome) {
    var (k1, woken) := TakeWakeFlag(k);
    BlockUnless(k1, resource, deadline, woken)
  }

  function Next(w: World): World {
    match w.pc
    case Waiting(resource, d) =>
      var (k, outcome) := Turn(w.k, resource, d);
      World(k, match outcome
               case ReadyNow => Back(d, true)
               case BlockedNow => w.pc
               case _ => Back(d, false), false, w.called)
    case _ => w
  }

  function Act(w: World, x: Ptr, a: Move): World
    requires x in w.k.mem
  {
    match a
    case Begin(resource, d) => w.(pc := Waiting(resource, d))
    case Section => Next(w)
    case Resume => w.(pc := Outside)
    case Kernel(s) =>
      w.(k := Apply(w.k, s),
         called := (w.called && !(s.TakeFlagStep? && w.k.current == x)) || Calls(w.k, s, x))
  }

  ghost predicate Sound(w: World, t: Tree, dead: seq<Ptr>, x: Ptr) {
    && WellFormed(w.k, t, dead)
    && IsLeaf(t, x)
    && x in w.k.mem && w.k.mem[x].kind.Leaf?
    && (w.k.mem[x].woken <==> w.called)
    && Honest(w, x)
  }

  /** What a wait promises. */
  ghost predicate Honest(w: World, x: Ptr)
    requires x in w.k.mem
  {
    && (w.pc.Back? ==> (w.pc.ok <==> w.answered))
    && (w.pc.Back? && !w.pc.ok ==> 0 < w.pc.deadline <= w.k.ticks)
    && (w.pc.Waiting? && w.k.mem[x].state.Blocked? ==>
          && !w.called
          && WaitsFor(w.k.mem[x], w.pc.resource) && w.k.mem[x].deadline == w.pc.deadline
          && (w.pc.deadline != 0 ==> w.k.ticks < w.pc.deadline))
  }

  lemma SectionIsSound(w: World, t: Tree, dead: seq<Ptr>, x: Ptr)
    requires Sound(w, t, dead, x) && Enabled(w, x, Section)
    ensures Sound(Next(w), t, dead, x)
  {
    hide WellFormed;
    WakeFlagWellFormed(w.k, t, dead);
    BlockWellFormed(TakeWakeFlag(w.k).0, t, dead, w.pc.resource, w.pc.deadline);
  }

  lemma KernelIsSound(w: World, t: Tree, dead: seq<Ptr>, x: Ptr, s: Step)
    requires Sound(w, t, dead, x) && Enabled(w, x, Kernel(s))
    ensures Sound(Act(w, x, Kernel(s)), TreeAfter(w.k, t, dead, s), DeadAfter(w.k, dead, s), x)
  {
    hide WellFormed, OthersMade, Apply, TreeAfter, Visited, SweepState, Calls;
    StepWellFormed(w.k, t, dead, s);
    TicksGrow(w.k, s);
    if Others(w.k, s, x) {
      OthersOnlyWake(w.k, t, dead, s, x);
      OnlyCallsAreHeard(w.k, t, dead, s, x);
      Executor.OthersGiveAll(w.k.mem[x], Apply(w.k, s).mem[x]);
      if w.pc.Waiting? && w.k.mem[x].state.Blocked? && s.TickStep? && w.pc.deadline != 0 {
        Executor.TickKeepsSleep(w.k, t, dead, x, w.pc.deadline);
      }
    } else {
      Executor.OwnSectionsKeepKind(w.k, t, dead, s, x);
      OwnFlag(w.k, s, x);
    }
  }

  lemma OwnFlag(k: State, s: Step, x: Ptr)
    requires OwnStep(s) && !s.ExitStep? && x in k.mem && k.current == x
    ensures x in Apply(k, s).mem && !Calls(k, s, x)
    ensures Apply(k, s).mem[x].woken == (k.mem[x].woken && !s.TakeFlagStep?)
  {
  }

  lemma ActIsSound(w: World, t: Tree, dead: seq<Ptr>, x: Ptr, a: Move) returns (t': Tree, dead': seq<Ptr>)
    requires Sound(w, t, dead, x) && Enabled(w, x, a)
    ensures Sound(Act(w, x, a), t', dead', x)
  {
    hide WellFormed, Apply;
    t', dead' := t, dead;
    match a
    case Section => SectionIsSound(w, t, dead, x);
    case Kernel(s) =>
      KernelIsSound(w, t, dead, x, s);
      t', dead' := TreeAfter(w.k, t, dead, s), DeadAfter(w.k, dead, s);
    case _ =>
  }

  // ----- every interleaving

  function Play(w: World, x: Ptr, moves: seq<Move>): World {
    if moves == [] then w
    else
      var before := Play(w, x, moves[..|moves| - 1]);
      if x in before.k.mem then Act(before, x, moves[|moves| - 1]) else before
  }

  ghost predicate Playable(w: World, x: Ptr, moves: seq<Move>) {
    forall i | 0 <= i < |moves| :: x in Play(w, x, moves[..i]).k.mem ==> Enabled(Play(w, x, moves[..i]), x, moves[i])
  }

  lemma PlayablePrefix(w: World, x: Ptr, moves: seq<Move>)
    requires Playable(w, x, moves) && moves != []
    ensures var before := moves[..|moves| - 1];
            && Playable(w, x, before)
            && (x in Play(w, x, before).k.mem ==> Enabled(Play(w, x, before), x, moves[|moves| - 1]))
  {
    hide Play, Enabled;
    var before := moves[..|moves| - 1];
    forall i | 0 <= i < |before| && x in Play(w, x, before[..i]).k.mem
      ensures Enabled(Play(w, x, before[..i]), x, before[i])
    {
      assert before[..i] == moves[..i];
    }
  }

  /** Over every interleaving: a wait says "woken" exactly when somebody has called the task
      since it last took its flag, and "timeout" only at its deadline or later; it is blocked
      only while nobody has called it and the deadline is ahead. */
  lemma {:induction false} WaitsAreHonest(w: World, t: Tree, dead: seq<Ptr>, x: Ptr, moves: seq<Move>)
    returns (t': Tree, dead': seq<Ptr>)
    requires Sound(w, t, dead, x) && Playable(w, x, moves)
    ensures Sound(Play(w, x, moves), t', dead', x)
    ensures x in Play(w, x, moves).k.mem && Honest(Play(w, x, moves), x)
  {
    hide WellFormed, Act, Enabled, Honest, Playable;
    if moves == [] {
      t', dead' := t, dead;
    } else {
      PlayablePrefix(w, x, moves);
      t', dead' := WaitsAreHonest(w, t, dead, x, moves[..|moves| - 1]);
      t', dead' := ActIsSound(Play(w, x, moves[..|moves| - 1]), t', dead', x, moves[|moves| - 1]);
    }
  }

  /** And this from init on, for every living task. */
  lemma WaitsAreHonestFromInit(r: Ptr, a: Ptr, steps: seq<Step>, x: Ptr, moves: seq<Move>)
    requires r != NULL && a != NULL && r != a && Legal(Init(r, a), steps)
    requires LivingTask(Run(Init(r, a), steps), x)
    requires var k := Run(Init(r, a), steps); Playable(World(k, Outside, k.mem[x].woken, false), x, moves)
    ensures var k := Run(Init(r, a), steps);
            var w := Play(World(k, Outside, k.mem[x].woken, false), x, moves);
            x in w.k.mem && Honest(w, x)
  {
    hide WellFormed, Run, Init, Play, Playable;
    var t, dead := RunWellFormed(r, a, steps);
    var k := Run(Init(r, a), steps);
    var w := World(k, Outside, k.mem[x].woken, false);
    LivingIsLeaf(k, t, dead, x);
    assert Sound(w, t, dead, x);
    t, dead := WaitsAreHonest(w, t, dead, x, moves);
  }

  // ----- how a wait ends

  /** A turn ends the wait with "woken" if and only if the task has been called, with a timeout
      if and only if it has not and the deadline is past, and otherwise the task is blocked for
      the same resource and deadline (again). */
  lemma TurnDecides(w: World, t: Tree, dead: seq<Ptr>, x: Ptr)
    requires Sound(w, t, dead, x) && Enabled(w, x, Section)
    ensures var w', past := Next(w), w.pc.deadline != 0 && w.pc.deadline <= w.k.ticks;
            && x in w'.k.mem
            && (w'.pc == Back(w.pc.deadline, true) <==> w.called)
            && (w'.pc == Back(w.pc.deadline, false) <==> !w.called && past)
            && (w'.pc == w.pc <==> !w.called && !past)
            && (w'.pc == w.pc <==> w'.k.mem[x].state.Blocked?)
            && (w'.k.mem[x].state.Blocked? ==>
                  WaitsFor(w'.k.mem[x], w.pc.resource) && w'.k.mem[x].deadline == w.pc.deadline)
  {
    hide WellFormed;
  }

  /** The i-th of these moves calls x. */
  ghost predicate CalledAt(w: World, x: Ptr, moves: seq<Move>, i: nat) {
    i < |moves| && moves[i].Kernel? && x in Play(w, x, moves[..i]).k.mem
    && Calls(Play(w, x, moves[..i]).k, moves[i].s, x)
  }

  lemma CalledBefore(w: World, x: Ptr, moves: seq<Move>, i: nat)
    requires moves != [] && i < |moves| - 1
    ensures CalledAt(w, x, moves[..|moves| - 1], i) <==> CalledAt(w, x, moves, i)
  {
    assert moves[..|moves| - 1][..i] == moves[..i];
  }

  /** Whatever the others do while x waits: its next turn ends the wait with "woken" if and only
      if one of those moves called x.  Releasing the queue is no call. */
  lemma {:induction false} WokenIffCalled(w: World, t: Tree, dead: seq<Ptr>, x: Ptr, moves: seq<Move>)
    requires Sound(w, t, dead, x) && Playable(w, x, moves) && w.pc.Waiting? && !w.called
    requires forall i | 0 <= i < |moves| :: moves[i].Kernel?
    ensures var w' := Play(w, x, moves);
            && w'.pc == w.pc
            && (w'.called <==> exists i: nat :: CalledAt(w, x, moves, i))
            && x in w'.k.mem
            && (Enabled(w', x, Section) ==> (Next(w').pc == Back(w.pc.deadline, true) <==> w'.called))
  {
    hide WellFormed, Calls, Playable, CalledAt;
    var t', dead' := WaitsAreHonest(w, t, dead, x, moves);
    if moves != [] {
      var before, a := moves[..|moves| - 1], moves[|moves| - 1];
      PlayablePrefix(w, x, moves);
      t', dead' := WaitsAreHonest(w, t, dead, x, before);
      WokenIffCalled(w, t, dead, x, before);
      forall i: nat | i < |before| ensures CalledAt(w, x, before, i) <==> CalledAt(w, x, moves, i) {
        CalledBefore(w, x, moves, i);
      }
      LastCall(w, x, moves);
      CallsInRange(w, x, before);
      CallsInRange(w, x, moves);
      t', dead' := WaitsAreHonest(w, t, dead, x, moves);
    } else {
      CallsInRange(w, x, moves);
    }
    if Enabled(Play(w, x, moves), x, Section) {
      TurnDecides(Play(w, x, moves), t', dead', x);
    }
  }

  lemma LastCall(w: World, x: Ptr, moves: seq<Move>)
    requires moves != [] && x in Play(w, x, moves[..|moves| - 1]).k.mem && moves[|moves| - 1].Kernel?
    ensures CalledAt(w, x, moves, |moves| - 1)
            <==> Calls(Play(w, x, moves[..|moves| - 1]).k, moves[|moves| - 1].s, x)
  {
  }

  lemma CallsInRange(w: World, x: Ptr, moves: seq<Move>)
    ensures forall i: nat | CalledAt(w, x, moves, i) :: i < |moves|
  {
  }

  /** A wait that nobody calls never ends well, whoever else releases the queue and however
      often: it goes on, for ever if it has no deadline, or times out. */
  lemma {:induction false} ReleaseEndsNoWait(w: World, t: Tree, dead: seq<Ptr>, x: Ptr, moves: seq<Move>)
    requires Sound(w, t, dead, x) && Playable(w, x, moves) && w.pc.Waiting? && !w.called
    requires (forall i: nat :: !CalledAt(w, x, moves, i)) && (forall i | 0 <= i < |moves| :: !moves[i].Resume?)
    ensures var w' := Play(w, x, moves);
            && !w'.called
            && (w'.pc == w.pc || (w'.pc == Back(w.pc.deadline, false) && w.pc.deadline != 0))
  {
    hide WellFormed, Calls, Playable, CalledAt;
    if moves != [] {
      var before, a := moves[..|moves| - 1], moves[|moves| - 1];
      PlayablePrefix(w, x, moves);
      forall i: nat ensures !CalledAt(w, x, before, i) {
        if i < |before| {
          CalledBefore(w, x, moves, i);
        } else {
          CallsInRange(w, x, before);
        }
      }
      if a.Kernel? && x in Play(w, x, before).k.mem {
        LastCall(w, x, moves);
      }
      ReleaseEndsNoWait(w, t, dead, x, before);
      var t', dead' := WaitsAreHonest(w, t, dead, x, before);
      if a.Section? {
        TurnDecides(Play(w, x, before), t', dead', x);
      }
    }
  }

  lemma PlayOn(w: World, x: Ptr, before: seq<Move>, a: Move)
    ensures Play(w, x, before + [a]) ==
            if x in Play(w, x, before).k.mem then Act(Play(w, x, before), x, a) else Play(w, x, before)
  {
    assert (before + [a])[..|before|] == before;
  }

  /** wake_all is such a release: task 0, fresh from init, waits on queue q without a deadline;
      wake_all finds it and makes it ready; and its next turn blocks it on q again. */
  lemma WakeAllIsSleptThrough(q: nat)
    ensures var w := World(Init(1, 2), Outside, false, false);
            var wait := [Begin(q, 0), Section];
            var released := wait + [Kernel(ReleaseStep(q))];
            && Playable(w, 2, released + [Section])
            && 2 in Play(w, 2, wait).k.mem && WaitsFor(Play(w, 2, wait).k.mem[2], q)
            && OnCpu(Play(w, 2, released).k, 2)
            && 2 in Play(w, 2, released + [Section]).k.mem && WaitsFor(Play(w, 2, released + [Section]).k.mem[2], q)
  {
    hide Play, Playable, Enabled, Calls, Visited;
    var w := World(Init(1, 2), Outside, false, false);
    var w1 := Act(w, 2, Begin(q, 0));
    var w2 := Act(w1, 2, Section);
    FirstIsVisited(w2.k);
    ReleaseFinds(w2.k, q, 2);
    var w3 := Act(w2, 2, Kernel(ReleaseStep(q)));
    EnabledWaits(w, w1, w3, q);
    PlayFour(w, 2, Begin(q, 0), Section, Kernel(ReleaseStep(q)), Section);
    assert !w3.called by { OnlyWakesCall(w2.k, q, 2); }
  }

  lemma OnlyWakesCall(k: State, q: nat, x: Ptr)
    requires x in k.mem
    ensures !Calls(k, ReleaseStep(q), x)
  {
  }

  lemma EnabledWaits(w: World, w1: World, w3: World, q: nat)
    requires w.pc.Outside? && w1.pc.Waiting? && w3.pc.Waiting?
    requires OnCpu(w.k, 2) && OnCpu(w1.k, 2) && OnCpu(w3.k, 2)
    ensures Enabled(w, 2, Begin(q, 0)) && Enabled(w1, 2, Section) && Enabled(w3, 2, Section)
    ensures forall w2: World | 2 in w2.k.mem :: Enabled(w2, 2, Kernel(ReleaseStep(q)))
  {
  }

  lemma PlayFour(w: World, x: Ptr, a: Move, b: Move, c: Move, d: Move)
    requires x in w.k.mem && x in Act(w, x, a).k.mem && x in Act(Act(w, x, a), x, b).k.mem
    requires x in Act(Act(Act(w, x, a), x, b), x, c).k.mem
    requires Enabled(w, x, a) && Enabled(Act(w, x, a), x, b) && Enabled(Act(Act(w, x, a), x, b), x, c)
    requires Enabled(Act(Act(Act(w, x, a), x, b), x, c), x, d)
    ensures var w2 := Act(Act(w, x, a), x, b);
            && Play(w, x, [a, b]) == w2
            && Play(w, x, [a, b] + [c]) == Act(w2, x, c)
            && Play(w, x, [a, b] + [c] + [d]) == Act(Act(w2, x, c), x, d)
            && Playable(w, x, [a, b] + [c] + [d])
  {
    hide Act, Enabled;
    var moves := [a, b] + [c] + [d];
    assert moves[..0] == [] && moves[..1] == [] + [a] && moves[..2] == [a] + [b] == [a, b] && moves[..3] == [a, b] + [c];
    PlayOn(w, x, [], a);
    PlayOn(w, x, [a], b);
    PlayOn(w, x, [a, b], c);
    PlayOn(w, x, [a, b] + [c], d);
    assert Play(w, x, []) == w;
  }

  lemma FirstIsVisited(k: State)
    requires k.root in k.mem && Linked(k.mem, Head(k.mem, k.root)) && k.nodes >= 1
    ensures Head(k.mem, k.root) in Visited(k)
  {
  }

  lemma ReleaseFinds(k: State, resource: nat, x: Ptr)
    requires k.root in k.mem && x in k.mem && x in Visited(k)
    ensures x in WakeBlockedOn(k, resource).mem
    ensures WakeBlockedOn(k, resource).mem[x] == ReleaseOne(resource)(k.mem[x])
  {
    hide Visited;
    CallbacksIdempotent(0, 0, resource);
    SweepExact(k.mem, Visited(k), ReleaseOne(resource), x);
  }
}
