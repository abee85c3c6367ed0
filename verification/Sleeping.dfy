/**
  sleep_until_tick: a loop around a clock read and a blocking section, with anything the
  others do in between, spurious wake-ups included.
 */
module Sleeping {
  import opened Tree
  import opened Memory
  import opened Walk
  import opened Lifecycle
  import opened Blocking
  import opened Invariant
  import opened Runs
  import opened Ledger
  import opened Deadlines
  import opened Foreign
  import Executor

  /** Checking is the loop's guard, Entering the blocking section, Back the return. */
  datatype Pc = Outside | Checking(deadline: nat) | Entering(deadline: nat) | Back(deadline: nat)

  datatype World = World(k: State, pc: Pc)

  datatype Move = Begin(deadline: nat) | Section | Resume | Kernel(s: Step)

  /** x runs its sections only on the CPU, and the sweep of each tick reaches x. */
  ghost predicate Enabled(w: World, x: Ptr, a: Move)
    requires x in w.k.mem
  {
    match a
    case Begin(_) => w.pc.Outside? && OnCpu(w.k, x)
    case Section => (w.pc.Checking? || w.pc.Entering?) && OnCpu(w.k, x)
    case Resume => w.pc.Back? && OnCpu(w.k, x)
    case Kernel(s) =>
      && Allowed(w.k, s)
      && (Others(w.k, s, x) || ((w.pc.Outside? || w.pc.Back?) && !s.ExitStep?))
      && (s.TickStep? ==> x in Visited(SweepState(w.k)))
  }

  function Next(w: World): World {
    match w.pc
    case Checking(d) => w.(pc := if w.k.ticks < d then Entering(d) else Back(d))
    case Entering(d) =>
      var (k, outcome) := MarkBlocked(w.k, 0, d);
      w.(k := k, pc := if outcome.BlockedNow? then Checking(d) else Back(d))
    case _ => w
  }

  function Act(w: World, a: Move): World {
    match a
    case Begin(d) => w.(pc := Checking(d))
    case Section => Next(w)
    case Resume => w.(pc := Outside)
    case Kernel(s) => w.(k := Apply(w.k, s))
  }

  ghost predicate Sound(w: World, t: Tree, dead: seq<Ptr>, x: Ptr) {
    && WellFormed(w.k, t, dead)
    && IsLeaf(t, x)
    && x in w.k.mem && w.k.mem[x].kind.Leaf?
    && (w.pc.Back? ==> w.pc.deadline <= w.k.ticks)
    && (w.pc.Entering? ==> w.pc.deadline > 0 && !w.k.mem[x].state.Blocked?)
    && (w.pc.Checking? && w.k.mem[x].state.Blocked? ==>
          WaitsFor(w.k.mem[x], 0) && w.k.mem[x].deadline == w.pc.deadline && w.k.ticks < w.pc.deadline)
  }

  lemma SectionIsSound(w: World, t: Tree, dead: seq<Ptr>, x: Ptr)
    requires Sound(w, t, dead, x) && Enabled(w, x, Section)
    ensures Sound(Next(w), t, dead, x)
  {
    hide WellFormed;
    BlockWellFormed(w.k, t, dead, 0, w.pc.deadline);
  }

  lemma KernelIsSound(w: World, t: Tree, dead: seq<Ptr>, x: Ptr, s: Step)
    requires Sound(w, t, dead, x) && Enabled(w, x, Kernel(s))
    ensures Sound(Act(w, Kernel(s)), TreeAfter(w.k, t, dead, s), DeadAfter(w.k, dead, s), x)
  {
    hide WellFormed, OthersMade, Apply, TreeAfter, Visited, SweepState;
    StepWellFormed(w.k, t, dead, s);
    TicksGrow(w.k, s);
    if Others(w.k, s, x) {
      OthersOnlyWake(w.k, t, dead, s, x);
      Executor.OthersGiveAll(w.k.mem[x], Apply(w.k, s).mem[x]);
      if w.pc.Checking? && w.k.mem[x].state.Blocked? && s.TickStep? {
        Executor.TickKeepsSleep(w.k, t, dead, x, w.pc.deadline);
      }
    } else {
      Executor.OwnSectionsKeepKind(w.k, t, dead, s, x);
    }
  }

  lemma ActIsSound(w: World, t: Tree, dead: seq<Ptr>, x: Ptr, a: Move) returns (t': Tree, dead': seq<Ptr>)
    requires Sound(w, t, dead, x) && Enabled(w, x, a)
    ensures Sound(Act(w, a), t', dead', x)
  {
    hide WellFormed, Apply;
    t', dead' := t, dead;
    match a
    case Section => SectionIsSound(w, t, dead, x);
    case Kernel(s) =>
      KernelIsSound(w, t, dead, x, s);
      t', dead' := TreeAfter(w.k, t, dead, s), DeadAfter(w.k, dead, s);
    case _ =>
  }

  function Play(w: World, moves: seq<Move>): World {
    if moves == [] then w else Act(Play(w, moves[..|moves| - 1]), moves[|moves| - 1])
  }

  ghost predicate Playable(w: World, x: Ptr, moves: seq<Move>) {
    forall i | 0 <= i < |moves| :: x in Play(w, moves[..i]).k.mem ==> Enabled(Play(w, moves[..i]), x, moves[i])
  }

  lemma {:induction false} PlayIsSound(w: World, t: Tree, dead: seq<Ptr>, x: Ptr, moves: seq<Move>)
    returns (t': Tree, dead': seq<Ptr>)
    requires Sound(w, t, dead, x) && Playable(w, x, moves)
    ensures Sound(Play(w, moves), t', dead', x)
  {
    hide WellFormed, Act, Enabled;
    if moves == [] {
      t', dead' := t, dead;
    } else {
      var before, a := moves[..|moves| - 1], moves[|moves| - 1];
      forall i | 0 <= i < |before| && x in Play(w, before[..i]).k.mem
        ensures Enabled(Play(w, before[..i]), x, before[i])
      {
        assert before[..i] == moves[..i];
      }
      t', dead' := PlayIsSound(w, t, dead, x, before);
      assert moves[..|moves| - 1] == before && Enabled(Play(w, before), x, a);
      t', dead' := ActIsSound(Play(w, before), t', dead', x, a);
    }
  }

  /** Over every interleaving, sleep_until_tick returns no earlier than its tick, whoever
      wakes the task in between; and the task is never left asleep past it. */
  lemma SleepsExactlyUntil(w: World, t: Tree, dead: seq<Ptr>, x: Ptr, moves: seq<Move>)
    requires Sound(w, t, dead, x) && Playable(w, x, moves)
    ensures var w' := Play(w, moves);
            && (w'.pc.Back? ==> w'.pc.deadline <= w'.k.ticks)
            && x in w'.k.mem
            && (w'.pc.Checking? && w'.k.ticks >= w'.pc.deadline ==> !w'.k.mem[x].state.Blocked?)
  {
    hide WellFormed, Play, Playable;
    var t', dead' := PlayIsSound(w, t, dead, x, moves);
  }

  /** A task woken early goes back to sleep for the same tick. */
  lemma EarlyWakesAreSleptThrough(w: World, t: Tree, dead: seq<Ptr>, x: Ptr)
    requires Sound(w, t, dead, x) && w.pc.Checking? && OnCpu(w.k, x) && w.k.ticks < w.pc.deadline
    ensures var w' := Next(Next(w));
            && w'.pc == w.pc && x in w'.k.mem
            && w'.k.mem[x].state.Blocked? && w'.k.mem[x].deadline == w.pc.deadline
  {
    hide WellFormed;
  }

  /** And this from init on, for every living task. */
  lemma SleepsExactlyUntilFromInit(r: Ptr, a: Ptr, steps: seq<Step>, x: Ptr, moves: seq<Move>)
    requires r != NULL && a != NULL && r != a && Legal(Init(r, a), steps)
    requires LivingTask(Run(Init(r, a), steps), x)
    requires Playable(World(Run(Init(r, a), steps), Outside), x, moves)
    ensures var w := Play(World(Run(Init(r, a), steps), Outside), moves);
            && (w.pc.Back? ==> w.pc.deadline <= w.k.ticks)
            && x in w.k.mem
            && (w.pc.Checking? && w.k.ticks >= w.pc.deadline ==> !w.k.mem[x].state.Blocked?)
  {
    hide WellFormed, Run, Init, Play, Playable;
    var t, dead := RunWellFormed(r, a, steps);
    var w := World(Run(Init(r, a), steps), Outside);
    LivingIsLeaf(w.k, t, dead, x);
    assert Sound(w, t, dead, x);
    SleepsExactlyUntil(w, t, dead, x, moves);
  }
}
