/**
  exec::block_on over any number of joined sleeps, and event::park underneath it.

  The task's TCB has one deadline slot and one wake flag.  Each section of the executor is
  one move; between any two of them the others may do what they like.
 */
module Executor {
  import opened Tree
  import opened Memory
  import opened Dispatch
  import opened Walk
  import opened Lifecycle
  import opened Blocking
  import opened Invariant
  import opened Runs
  import opened Ledger
  import opened Deadlines
  import opened Foreign

  /** The sections of block_on, in program order; Poll(i) looks at the i-th sleep and Arm(i)
      records its deadline. */
  datatype Pc = Outside | ClearFlag | ClearTimer | Poll(i: nat) | Arm(i: nat) | ReadTimer | Parking(deadline: nat)

  datatype World = World(k: State, pc: Pc, sleeps: seq<nat>, done: seq<bool>)

  datatype Move = Start(sleeps: seq<nat>) | Section | Kernel(s: Step)

  /** x runs its sections only on the CPU; the others take any other step; the sweep of each
      tick reaches x. */
  ghost predicate Enabled(w: World, x: Ptr, a: Move)
    requires x in w.k.mem
  {
    match a
    case Start(_) => w.pc.Outside? && OnCpu(w.k, x)
    case Section => !w.pc.Outside? && OnCpu(w.k, x)
    case Kernel(s) =>
      && Allowed(w.k, s)
      && (Others(w.k, s, x) || (w.pc.Outside? && !s.ExitStep?))
      && (s.TickStep? ==> x in Visited(SweepState(w.k)))
  }

  function AllDone(done: seq<bool>): bool {
    forall i | 0 <= i < |done| :: done[i]
  }

  /** One turn of park's loop. */
  function ParkSection(k: State, deadline: nat): (State, BlockOutcome) {
    var (k1, woken) := TakeWakeFlag(k);
    BlockUnless(k1, if k.current in k.mem then k.mem[k.current].id else 0, deadline, woken)
  }

  /** That turn in full: a raised wake flag is consumed and nobody blocks, else the caller blocks
      on its own id until the deadline, unless that is past. */
  ghost predicate ParkEffect(k: State, deadline: nat, k': State, outcome: BlockOutcome) {
    if k.current in k.mem && k.mem[k.current].woken then
      outcome == ReadyNow && k' == k.(mem := k.mem[k.current := k.mem[k.current].(woken := false)])
    else BlockEffect(k, if k.current in k.mem then k.mem[k.current].id else 0, deadline, k', outcome)
  }

  lemma ParkExact(k: State, deadline: nat)
    ensures var (k', outcome) := ParkSection(k, deadline);
            ParkEffect(k, deadline, k', outcome)
  {
    if k.current in k.mem {
      assert k.mem[k.current].woken || k.mem[k.current].(woken := false) == k.mem[k.current];
      assert k.mem[k.current := k.mem[k.current]] == k.mem;
    }
  }

  function Next(w: World): World {
    match w.pc
    case Outside => w
    case ClearFlag => w.(k := TakeWakeFlag(w.k).0, pc := ClearTimer)
    case ClearTimer => w.(k := ClearTimerDeadline(w.k), pc := Poll(0))
    case Poll(i) =>
      if i >= |w.sleeps| || i >= |w.done| then w.(pc := if AllDone(w.done) then Outside else ReadTimer)
      else if w.done[i] then w.(pc := Poll(i + 1))
      else if w.k.ticks >= w.sleeps[i] then w.(done := w.done[i := true], pc := Poll(i + 1))
      else w.(pc := Arm(i))
    case Arm(i) =>
      w.(k := if i < |w.sleeps| then SetTimerDeadline(w.k, w.sleeps[i]) else w.k, pc := Poll(i + 1))
    case ReadTimer =>
      w.(pc := Parking(if w.k.current in w.k.mem then w.k.mem[w.k.current].deadline else 0))
    case Parking(d) =>
      var (k, outcome) := ParkSection(w.k, d);
      w.(k := k, pc := if outcome.BlockedNow? then w.pc else ClearFlag)
  }

  function Act(w: World, a: Move): World {
    match a
    case Start(sleeps) => w.(pc := ClearFlag, sleeps := sleeps, done := seq(|sleeps|, _ => false))
    case Section => Next(w)
    case Kernel(s) => w.(k := Apply(w.k, s))
  }

  // ----- the invariant

  /** The least deadline among the first n sleeps that are still pending; zero if none. */
  ghost function Least(sleeps: seq<nat>, done: seq<bool>, n: nat): nat
    requires n <= |sleeps| == |done|
  {
    if n == 0 then 0
    else
      var best := Least(sleeps, done, n - 1);
      if done[n - 1] then best
      else if best == 0 || sleeps[n - 1] < best then sleeps[n - 1]
      else best
  }

  lemma {:induction false} LeastIsLeast(sleeps: seq<nat>, done: seq<bool>, n: nat)
    requires n <= |sleeps| == |done|
    requires forall i | 0 <= i < n && !done[i] :: sleeps[i] > 0
    ensures Least(sleeps, done, n) == 0 <==> forall i | 0 <= i < n :: done[i]
    ensures forall i | 0 <= i < n && !done[i] :: Least(sleeps, done, n) <= sleeps[i]
    ensures Least(sleeps, done, n) > 0 ==> exists i :: 0 <= i < n && !done[i] && sleeps[i] == Least(sleeps, done, n)
  {
    if n > 0 {
      LeastIsLeast(sleeps, done, n - 1);
    }
  }

  lemma {:induction false} LeastIgnoresLater(sleeps: seq<nat>, done: seq<bool>, n: nat, i: nat)
    requires n <= i < |sleeps| == |done|
    ensures Least(sleeps, done[i := true], n) == Least(sleeps, done, n)
  {
    if n > 0 {
      LeastIgnoresLater(sleeps, done, n - 1, i);
    }
  }

  /** How many sleeps this poll has looked at. */
  ghost function Polled(w: World): nat {
    match w.pc
    case Poll(i) => if i <= |w.sleeps| then i else |w.sleeps|
    case Arm(i) => if i <= |w.sleeps| then i else |w.sleeps|
    case ReadTimer => |w.sleeps|
    case Parking(_) => |w.sleeps|
    case _ => 0
  }

  ghost predicate Polling(pc: Pc) { pc.Poll? || pc.Arm? || pc.ReadTimer? }

  /** What this poll left behind: positive deadlines for everything pending that it looked
      at. */
  ghost predicate Armed(w: World)
    requires |w.done| == |w.sleeps|
  {
    forall i | 0 <= i < Polled(w) && !w.done[i] :: w.sleeps[i] > 0
  }

  ghost predicate Sound(w: World, t: Tree, dead: seq<Ptr>, x: Ptr) {
    && WellFormed(w.k, t, dead)
    && IsLeaf(t, x)
    && x in w.k.mem && w.k.mem[x].kind.Leaf?
    && |w.done| == |w.sleeps|
    && (forall i | 0 <= i < |w.sleeps| && w.done[i] :: w.sleeps[i] <= w.k.ticks)
    && Armed(w)
    && (w.pc.Arm? ==> w.pc.i < |w.sleeps| && !w.done[w.pc.i] && w.sleeps[w.pc.i] > 0)
    && (w.pc.Poll? ==> w.pc.i <= |w.sleeps|)
    && (w.pc.ReadTimer? || w.pc.Parking? ==> !AllDone(w.done))
    && (!w.pc.Outside? && !w.pc.Parking? ==> !w.k.mem[x].state.Blocked?)
    && (Polling(w.pc) ==> w.k.mem[x].deadline == Least(w.sleeps, w.done, Polled(w)))
    && (w.pc.Parking? ==> w.pc.deadline == Least(w.sleeps, w.done, |w.sleeps|))
    && (w.pc.Parking? && w.k.mem[x].state.Blocked? ==>
          && WaitsFor(w.k.mem[x], w.k.mem[x].id)
          && w.k.mem[x].deadline == w.pc.deadline && w.k.ticks < w.pc.deadline
          && !w.k.mem[x].woken)
  }

  lemma SectionKernel(w: World, t: Tree, dead: seq<Ptr>, x: Ptr)
    requires Sound(w, t, dead, x) && Enabled(w, x, Section)
    ensures WellFormed(Next(w).k, t, dead)
    ensures x in Next(w).k.mem && Next(w).k.mem[x].kind == w.k.mem[x].kind && Next(w).k.ticks == w.k.ticks
  {
    hide WellFormed;
    match w.pc
    case ClearFlag => WakeFlagWellFormed(w.k, t, dead);
    case ClearTimer => ClearTimerWellFormed(w.k, t, dead);
    case Arm(i) => SetTimerWellFormed(w.k, t, dead, w.sleeps[i]);
    case Parking(d) =>
      WakeFlagWellFormed(w.k, t, dead);
      BlockWellFormed(TakeWakeFlag(w.k).0, t, dead, w.k.mem[x].id, d);
    case _ =>
  }

  lemma PollIsSound(w: World, t: Tree, dead: seq<Ptr>, x: Ptr)
    requires Sound(w, t, dead, x) && Enabled(w, x, Section) && Polling(w.pc)
    ensures Sound(Next(w), t, dead, x)
  {
    hide WellFormed;
    SectionKernel(w, t, dead, x);
    if w.pc.Poll? && w.pc.i < |w.sleeps| && !w.done[w.pc.i] {
      LeastIgnoresLater(w.sleeps, w.done, w.pc.i, w.pc.i);
    }
  }

  lemma ParkIsSound(w: World, t: Tree, dead: seq<Ptr>, x: Ptr)
    requires Sound(w, t, dead, x) && Enabled(w, x, Section) && w.pc.Parking?
    ensures Sound(Next(w), t, dead, x)
  {
    hide WellFormed;
    SectionKernel(w, t, dead, x);
    LeastIsLeast(w.sleeps, w.done, |w.sleeps|);
  }

  lemma SectionIsSound(w: World, t: Tree, dead: seq<Ptr>, x: Ptr)
    requires Sound(w, t, dead, x) && Enabled(w, x, Section)
    ensures Sound(Next(w), t, dead, x)
  {
    hide WellFormed;
    if Polling(w.pc) {
      PollIsSound(w, t, dead, x);
    } else if w.pc.Parking? {
      ParkIsSound(w, t, dead, x);
    } else {
      SectionKernel(w, t, dead, x);
    }
  }

  lemma KernelIsSound(w: World, t: Tree, dead: seq<Ptr>, x: Ptr, s: Step)
    requires Sound(w, t, dead, x) && Enabled(w, x, Kernel(s))
    ensures Sound(Act(w, Kernel(s)), TreeAfter(w.k, t, dead, s), DeadAfter(w.k, dead, s), x)
  {
    hide WellFormed, OthersMade, Apply, TreeAfter, Visited, Asleep, Undisturbed, SweepState;
    StepWellFormed(w.k, t, dead, s);
    TicksGrow(w.k, s);
    if Others(w.k, s, x) {
      OthersOnlyWake(w.k, t, dead, s, x);
      OthersGiveAll(w.k.mem[x], Apply(w.k, s).mem[x]);
      if w.pc.Parking? && w.k.mem[x].state.Blocked? && s.TickStep? {
        TickKeepsSleep(w.k, t, dead, x, w.pc.deadline);
      }
    } else {
      OwnSectionsKeepKind(w.k, t, dead, s, x);
    }
  }

  lemma OthersGiveAll(c: Tcb, c': Tcb)
    requires OthersMade(c, c')
    ensures c'.id == c.id && c'.kind == c.kind
    ensures c'.state.Blocked? ==>
              c.state.Blocked? && c'.woken == c.woken && c'.deadline == c.deadline && c'.blockedOn == c.blockedOn
    ensures !c.state.Blocked? ==> c'.deadline == c.deadline && (c.woken ==> c'.woken)
  {
  }

  lemma TickKeepsSleep(k: State, t: Tree, dead: seq<Ptr>, x: Ptr, d: nat)
    requires WellFormed(k, t, dead) && x in k.mem && k.mem[x].kind.Leaf? && k.mem[x].state.Blocked?
    requires k.mem[x].deadline == d && k.ticks < d && x in Visited(SweepState(k))
    ensures x in Apply(k, TickStep).mem
    ensures Apply(k, TickStep).mem[x].state.Blocked? ==> Apply(k, TickStep).ticks < d
  {
    hide WellFormed, OnTick, Visited, SweepState, ScheduleNext;
    TickSleeps(k, t, dead, x, d);
    OnTickWellFormed(k, t, dead);
    SwitchSleeps(OnTick(k), t, dead, x);
  }

  lemma OwnSectionsKeepKind(k: State, t: Tree, dead: seq<Ptr>, s: Step, x: Ptr)
    requires WellFormed(k, t, dead) && Allowed(k, s) && OwnStep(s) && !s.ExitStep? && x in k.mem
    ensures x in Apply(k, s).mem && Apply(k, s).mem[x].kind == k.mem[x].kind
    ensures TreeAfter(k, t, dead, s) == t
  {
  }

  // ----- every interleaving

  function Play(w: World, moves: seq<Move>): World {
    if moves == [] then w else Act(Play(w, moves[..|moves| - 1]), moves[|moves| - 1])
  }

  ghost predicate Playable(w: World, x: Ptr, moves: seq<Move>) {
    forall i | 0 <= i < |moves| :: x in Play(w, moves[..i]).k.mem ==> Enabled(Play(w, moves[..i]), x, moves[i])
  }

  lemma ActIsSound(w: World, t: Tree, dead: seq<Ptr>, x: Ptr, a: Move) returns (t': Tree, dead': seq<Ptr>)
    requires Sound(w, t, dead, x) && Enabled(w, x, a)
    ensures Sound(Act(w, a), t', dead', x)
  {
    hide WellFormed, Apply;
    t', dead' := t, dead;
    match a
    case Start(sleeps) =>
    case Section => SectionIsSound(w, t, dead, x);
    case Kernel(s) =>
      KernelIsSound(w, t, dead, x, s);
      t', dead' := TreeAfter(w.k, t, dead, s), DeadAfter(w.k, dead, s);
  }

  /** Over every interleaving of block_on with the rest of the kernel: no sleep is resolved
      before its tick, block_on is never parked past the deadline of a pending sleep, the
      deadline it parks on is exactly the least of those, and it is never parked with its
      wake flag up. */
  lemma {:induction false} SleepsKeepTime(w: World, t: Tree, dead: seq<Ptr>, x: Ptr, moves: seq<Move>)
    returns (t': Tree, dead': seq<Ptr>)
    requires Sound(w, t, dead, x) && Playable(w, x, moves)
    ensures var w' := Play(w, moves);
            && Sound(w', t', dead', x)
            && (forall i | 0 <= i < |w'.sleeps| && w'.done[i] :: w'.sleeps[i] <= w'.k.ticks)
            && (w'.pc.Parking? && w'.k.mem[x].state.Blocked? ==>
                  && !w'.k.mem[x].woken
                  && (forall i | 0 <= i < |w'.sleeps| && !w'.done[i] ::
                        w'.k.ticks < w'.k.mem[x].deadline <= w'.sleeps[i])
                  && (exists i :: 0 <= i < |w'.sleeps| && !w'.done[i] && w'.sleeps[i] == w'.k.mem[x].deadline))
  {
    hide WellFormed, Act, Enabled, Sound;
    if moves == [] {
      t', dead' := t, dead;
    } else {
      var before, a := moves[..|moves| - 1], moves[|moves| - 1];
      forall i | 0 <= i < |before| && x in Play(w, before[..i]).k.mem
        ensures Enabled(Play(w, before[..i]), x, before[i])
      {
        assert before[..i] == moves[..i];
      }
      t', dead' := SleepsKeepTime(w, t, dead, x, before);
      var mid := Play(w, before);
      assert x in mid.k.mem by { SoundInMemory(mid, t', dead', x); }
      assert moves[..|moves| - 1] == before && Enabled(mid, x, a);
      t', dead' := ActIsSound(mid, t', dead', x, a);
    }
    ParkedOnLeast(Play(w, moves), t', dead', x);
  }

  lemma SoundInMemory(w: World, t: Tree, dead: seq<Ptr>, x: Ptr)
    requires Sound(w, t, dead, x)
    ensures x in w.k.mem
  {
  }

  lemma ParkedOnLeast(w: World, t: Tree, dead: seq<Ptr>, x: Ptr)
    requires Sound(w, t, dead, x)
    ensures x in w.k.mem && |w.done| == |w.sleeps|
    ensures forall i | 0 <= i < |w.sleeps| && w.done[i] :: w.sleeps[i] <= w.k.ticks
    ensures w.pc.Parking? && w.k.mem[x].state.Blocked? ==>
              && !w.k.mem[x].woken
              && (forall i | 0 <= i < |w.sleeps| && !w.done[i] :: w.k.ticks < w.k.mem[x].deadline <= w.sleeps[i])
              && (exists i :: 0 <= i < |w.sleeps| && !w.done[i] && w.sleeps[i] == w.k.mem[x].deadline)
  {
    hide WellFormed;
    if w.pc.Parking? {
      LeastIsLeast(w.sleeps, w.done, |w.sleeps|);
    }
  }

  /** A wake that arrives any time after the flag was cleared forces another poll: park
      returns at once instead of sleeping through it. */
  lemma WakeForcesAnotherPoll(w: World, t: Tree, dead: seq<Ptr>, x: Ptr)
    requires Sound(w, t, dead, x) && Enabled(w, x, Section) && w.pc.Parking? && w.k.mem[x].woken
    ensures Next(w).pc == ClearFlag && !Next(w).k.mem[x].state.Blocked?
  {
    hide WellFormed;
  }

  /** A turn of block_on starts with the flag down and no deadline armed, and looking at a pending
      sleep resolves it if and only if its tick has come. */
  lemma TurnsStartClean(w: World, t: Tree, dead: seq<Ptr>, x: Ptr)
    requires Sound(w, t, dead, x) && Enabled(w, x, Section)
    ensures var w' := Next(w);
            && x in w'.k.mem
            && (w.pc.ClearFlag? ==> !w'.k.mem[x].woken && w'.pc == ClearTimer)
            && (w.pc.ClearTimer? ==> w'.k.mem[x].deadline == 0 && w'.pc == Poll(0))
            && (w.pc.Poll? && w.pc.i < |w.sleeps| ==>
                  && |w'.done| == |w.done|
                  && (w'.done[w.pc.i] <==> w.done[w.pc.i] || w.sleeps[w.pc.i] <= w.k.ticks)
                  && forall j | 0 <= j < |w.done| && j != w.pc.i :: w'.done[j] == w.done[j])
  {
    hide WellFormed;
    SectionKernel(w, t, dead, x);
  }

  /** block_on returns only when every joined sleep has resolved. */
  lemma ReturnsWhenDone(w: World, x: Ptr)
    requires x in w.k.mem && Enabled(w, x, Section) && |w.done| == |w.sleeps|
    requires Next(w).pc.Outside?
    ensures forall i | 0 <= i < |w.done| :: w.done[i]
  {
  }

  /** And this from init on: after any legal run any living task may start a block_on. */
  lemma SleepsKeepTimeFromInit(r: Ptr, a: Ptr, steps: seq<Step>, x: Ptr, moves: seq<Move>)
    requires r != NULL && a != NULL && r != a && Legal(Init(r, a), steps)
    requires LivingTask(Run(Init(r, a), steps), x)
    requires Playable(World(Run(Init(r, a), steps), Outside, [], []), x, moves)
    ensures var w := Play(World(Run(Init(r, a), steps), Outside, [], []), moves);
            && x in w.k.mem && |w.done| == |w.sleeps|
            && (forall i | 0 <= i < |w.sleeps| && w.done[i] :: w.sleeps[i] <= w.k.ticks)
            && (w.pc.Parking? && w.k.mem[x].state.Blocked? ==>
                  && !w.k.mem[x].woken
                  && (forall i | 0 <= i < |w.sleeps| && !w.done[i] :: w.k.ticks < w.k.mem[x].deadline <= w.sleeps[i])
                  && (exists i :: 0 <= i < |w.sleeps| && !w.done[i] && w.sleeps[i] == w.k.mem[x].deadline))
  {
    hide WellFormed, Run, Init, Play, Playable;
    var t, dead := RunWellFormed(r, a, steps);
    var w := World(Run(Init(r, a), steps), Outside, [], []);
    LivingIsLeaf(w.k, t, dead, x);
    assert Sound(w, t, dead, x);
    t, dead := SleepsKeepTime(w, t, dead, x, moves);
    SoundInMemory(Play(w, moves), t, dead, x);
    ParkedOnLeast(Play(w, moves), t, dead, x);
  }
}
