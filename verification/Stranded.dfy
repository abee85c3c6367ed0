/**
  io::Pipe between one reader task, one writer task and interrupt handlers: nobody is left
  blocked beside bytes to read or room to write, and the bytes come out in order.

  The buffer is a queue here; module Pipes shows that the index arithmetic implements it.
 */
module Stranded {
  import opened Tree
  import opened Memory
  import opened Walk
  import opened Lifecycle
  import opened Blocking
  import opened Invariant
  import opened Runs
  import opened Ledger
  import opened Deadlines
  import opened Foreign
  import opened Signals
  import Executor

  const CAPACITY: nat := 256

  /** read_blocking: pop, and if nothing was there wait on the data signal and pop again. */
  datatype Reader = NotReading | Popping(room: nat, deadline: nat) | AwaitingData(room: nat, deadline: nat)

  /** write_blocking: push what fits, and if bytes are left wait on the space signal. */
  datatype Writer = NotWriting | Pushing(rest: seq<nat>, deadline: nat) | AwaitingSpace(rest: seq<nat>, deadline: nat)

  /** dataDue and spaceDue: sections that have moved bytes and not yet called set. */
  datatype Pipe = Pipe(
    queue: seq<nat>,
    accepted: seq<nat>,
    popped: seq<nat>,
    data: Signal,
    space: Signal,
    dataDue: nat,
    spaceDue: nat,
    reader: Reader,
    writer: Writer)

  datatype World = World(k: State, p: Pipe, wakes: multiset<nat>)

  datatype Move =
    | Read(room: nat, deadline: nat)
    | ReaderSection
    | Write(bytes: seq<nat>, deadline: nat)
    | WriterSection
    | IsrPush(bytes: seq<nat>)
    | SetData
    | SetSpace
    | Deliver(id: nat)
    | Kernel(s: Step)

  // ----- the sections

  function Fitting(p: Pipe, bytes: seq<nat>): nat {
    if |p.queue| >= CAPACITY then 0
    else if |bytes| <= CAPACITY - |p.queue| then |bytes| else CAPACITY - |p.queue|
  }

  /** write_from_isr, and push_from_isr for a single byte: what does not fit is refused. */
  function Accept(p: Pipe, bytes: seq<nat>): Pipe {
    var n := Fitting(p, bytes);
    p.(queue := p.queue + bytes[..n], accepted := p.accepted + bytes[..n],
       dataDue := if n > 0 then p.dataDue + 1 else p.dataDue)
  }

  function Poppable(p: Pipe, room: nat): nat { if |p.queue| <= room then |p.queue| else room }

  /** pop_into. */
  function Pop(p: Pipe, room: nat): Pipe {
    var n := Poppable(p, room);
    p.(queue := p.queue[n..], popped := p.popped + p.queue[..n],
       spaceDue := if n > 0 then p.spaceDue + 1 else p.spaceDue)
  }

  function ReaderTurn(w: World): World {
    match w.p.reader
    case NotReading => w
    case Popping(room, deadline) =>
      w.(p := Pop(w.p, room).(reader := if Poppable(w.p, room) > 0 then NotReading else AwaitingData(room, deadline)))
    case AwaitingData(room, deadline) =>
      var (k, sig, outcome) := WaitSection(w.k, w.p.data, deadline);
      w.(k := k, p := w.p.(data := sig, reader :=
        match outcome
        case ReadyNow => Popping(room, deadline)
        case BlockedNow => w.p.reader
        case _ => NotReading))
  }

  function WriterTurn(w: World): World {
    match w.p.writer
    case NotWriting => w
    case Pushing(rest, deadline) =>
      var n := Fitting(w.p, rest);
      w.(p := Accept(w.p, rest).(writer := if n == |rest| then NotWriting else AwaitingSpace(rest[n..], deadline)))
    case AwaitingSpace(rest, deadline) =>
      var (k, sig, outcome) := WaitSection(w.k, w.p.space, deadline);
      w.(k := k, p := w.p.(space := sig, writer :=
        match outcome
        case ReadyNow => Pushing(rest, deadline)
        case BlockedNow => w.p.writer
        case _ => NotWriting))
  }

  function Claimed(wakes: multiset<nat>, id: nat): multiset<nat> {
    if id != 0 then wakes + multiset{id} else wakes
  }

  function Act(w: World, a: Move): World {
    match a
    case Read(room, deadline) => w.(p := w.p.(reader := Popping(room, deadline)))
    case ReaderSection => ReaderTurn(w)
    case Write(bytes, deadline) =>
      w.(p := w.p.(writer := if bytes == [] then NotWriting else Pushing(bytes, deadline)))
    case WriterSection => WriterTurn(w)
    case IsrPush(bytes) => w.(p := Accept(w.p, bytes))
    case SetData =>
      var (sig, id) := SetSection(w.p.data);
      w.(p := w.p.(data := sig, dataDue := if w.p.dataDue == 0 then 0 else w.p.dataDue - 1), wakes := Claimed(w.wakes, id))
    case SetSpace =>
      var (sig, id) := SetSection(w.p.space);
      w.(p := w.p.(space := sig, spaceDue := if w.p.spaceDue == 0 then 0 else w.p.spaceDue - 1), wakes := Claimed(w.wakes, id))
    case Deliver(id) => w.(k := WakeTask(w.k, id), wakes := w.wakes - multiset{id})
    case Kernel(s) => w.(k := Apply(w.k, s))
  }

  ghost predicate LeavesAlone(k: State, s: Step, x: Ptr, idle: bool) {
    Others(k, s, x) || (idle && !s.ExitStep?)
  }

  /** The reader r and the writer y run their sections on the CPU and do nothing else while
      they read or write; a delivered wake's walk reaches its task. */
  ghost predicate Enabled(w: World, r: Ptr, y: Ptr, a: Move)
    requires r in w.k.mem && y in w.k.mem
  {
    match a
    case Read(room, _) => room > 0 && w.p.reader.NotReading? && OnCpu(w.k, r)
    case ReaderSection => OnCpu(w.k, r)
    case Write(_, _) => w.p.writer.NotWriting? && OnCpu(w.k, y)
    case WriterSection => OnCpu(w.k, y)
    case IsrPush(_) => true
    case SetData => w.p.dataDue > 0
    case SetSpace => w.p.spaceDue > 0
    case Deliver(id) =>
      && id in w.wakes
      && (id == w.k.mem[r].id ==> r in Visited(w.k))
      && (id == w.k.mem[y].id ==> y in Visited(w.k))
    case Kernel(s) =>
      && Allowed(w.k, s)
      && LeavesAlone(w.k, s, r, w.p.reader.NotReading?)
      && LeavesAlone(w.k, s, y, w.p.writer.NotWriting?)
  }

  // ----- the invariant

  /** As for any signal: a blocked waiter is registered under a lowered flag, or its wake is
      in flight. */
  ghost predicate Registered(k: State, wakes: multiset<nat>, sig: Signal, x: Ptr)
    requires x in k.mem
  {
    k.mem[x].state.Blocked? ==> k.mem[x].id in wakes || (sig.waiter == k.mem[x].id && !sig.raised)
  }

  /** The queue is what was accepted less what was popped, and it fits. */
  ghost predicate InOrder(p: Pipe) {
    p.accepted == p.popped + p.queue && |p.queue| <= CAPACITY
  }

  /** Bytes beside a waiting reader, or room beside a waiting writer, are announced or about
      to be. */
  ghost predicate Announced(p: Pipe) {
    && (p.reader.AwaitingData? && p.queue != [] ==> p.dataDue > 0 || p.data.raised)
    && (p.writer.AwaitingSpace? && |p.queue| < CAPACITY ==> p.spaceDue > 0 || p.space.raised)
    && (p.reader.AwaitingData? || p.reader.Popping? ==> p.reader.room > 0)
    && (p.writer.AwaitingSpace? || p.writer.Pushing? ==> p.writer.rest != [])
  }

  /** A waiter that is blocked is blocked on its own id, until exactly the deadline it asked
      for. */
  ghost predicate Timed(k: State, x: Ptr, deadline: nat)
    requires x in k.mem
  {
    k.mem[x].state.Blocked? ==> WaitsFor(k.mem[x], k.mem[x].id) && k.mem[x].deadline == deadline
  }

  ghost predicate Sound(w: World, t: Tree, dead: seq<Ptr>, r: Ptr, y: Ptr) {
    && WellFormed(w.k, t, dead)
    && IsLeaf(t, r) && IsLeaf(t, y) && r != y
    && r in w.k.mem && y in w.k.mem && w.k.mem[r].id != 0 && w.k.mem[y].id != 0
    && InOrder(w.p)
    && Announced(w.p)
    && (w.p.reader.AwaitingData? ==> Registered(w.k, w.wakes, w.p.data, r))
    && (w.p.writer.AwaitingSpace? ==> Registered(w.k, w.wakes, w.p.space, y))
    && (w.p.reader.AwaitingData? ==> Timed(w.k, r, w.p.reader.deadline))
    && (w.p.writer.AwaitingSpace? ==> Timed(w.k, y, w.p.writer.deadline))
    && (w.p.reader.Popping? ==> !w.k.mem[r].state.Blocked?)
    && (w.p.writer.Pushing? ==> !w.k.mem[y].state.Blocked?)
  }

  lemma QueueIsOrdered(p: Pipe, bytes: seq<nat>, room: nat)
    requires InOrder(p)
    ensures InOrder(Accept(p, bytes)) && InOrder(Pop(p, room))
    ensures Fitting(p, bytes) < |bytes| ==> |Accept(p, bytes).queue| == CAPACITY
    ensures Poppable(p, room) == 0 && room > 0 ==> p.queue == []
  {
    var n := Poppable(p, room);
    assert p.queue == p.queue[..n] + p.queue[n..];
  }

  /** A pop stops only at its room or an empty buffer, a push only at its end or a full buffer, and
      a section owes a set exactly when it moved something. */
  lemma SectionsMoveAllTheyCan(p: Pipe, bytes: seq<nat>, room: nat)
    requires InOrder(p)
    ensures var p' := Pop(p, room);
            && (p'.queue == [] || |p'.popped| == |p.popped| + room) && |p.popped| <= |p'.popped| <= |p.popped| + room
            && p'.spaceDue == (if |p'.popped| > |p.popped| then p.spaceDue + 1 else p.spaceDue)
    ensures var p' := Accept(p, bytes);
            && (p'.accepted == p.accepted + bytes || |p'.queue| == CAPACITY)
            && p'.accepted <= p.accepted + bytes
            && p'.dataDue == (if |p'.accepted| > |p.accepted| then p.dataDue + 1 else p.dataDue)
  {
    assert p.accepted + bytes[..Fitting(p, bytes)] <= p.accepted + bytes;
  }

  lemma ReaderTurnIsSound(w: World, t: Tree, dead: seq<Ptr>, r: Ptr, y: Ptr)
    requires Sound(w, t, dead, r, y) && Enabled(w, r, y, ReaderSection)
    ensures Sound(ReaderTurn(w), t, dead, r, y)
  {
    hide WellFormed;
    match w.p.reader
    case NotReading =>
    case Popping(room, deadline) => QueueIsOrdered(w.p, [], room);
    case AwaitingData(room, deadline) => BlockWellFormed(w.k, t, dead, CurrentId(w.k), deadline);
  }

  lemma WriterTurnIsSound(w: World, t: Tree, dead: seq<Ptr>, r: Ptr, y: Ptr)
    requires Sound(w, t, dead, r, y) && Enabled(w, r, y, WriterSection)
    ensures Sound(WriterTurn(w), t, dead, r, y)
  {
    hide WellFormed;
    match w.p.writer
    case NotWriting =>
    case Pushing(rest, deadline) => QueueIsOrdered(w.p, rest, 0);
    case AwaitingSpace(rest, deadline) => BlockWellFormed(w.k, t, dead, CurrentId(w.k), deadline);
  }

  lemma DeliverIsSound(w: World, t: Tree, dead: seq<Ptr>, r: Ptr, y: Ptr, id: nat)
    requires Sound(w, t, dead, r, y) && Enabled(w, r, y, Move.Deliver(id))
    ensures Sound(Act(w, Move.Deliver(id)), t, dead, r, y)
  {
    hide WellFormed, Visited, OthersMade;
    WakesWellFormed(w.k, t, dead, id, 0);
    RootInMemory(w.k, t, dead);
    CallbacksIdempotent(0, id, 0);
    SweepExact(w.k.mem, Visited(w.k), WakeOne(id), r);
    SweepExact(w.k.mem, Visited(w.k), WakeOne(id), y);
  }

  lemma KernelIsSound(w: World, t: Tree, dead: seq<Ptr>, r: Ptr, y: Ptr, s: Step)
    requires Sound(w, t, dead, r, y) && Enabled(w, r, y, Move.Kernel(s))
    ensures Sound(Act(w, Move.Kernel(s)), TreeAfter(w.k, t, dead, s), DeadAfter(w.k, dead, s), r, y)
  {
    hide WellFormed, OthersMade, Apply, TreeAfter;
    StepWellFormed(w.k, t, dead, s);
    TaskKept(w.k, t, dead, s, r, w.p.reader.NotReading?);
    TaskKept(w.k, t, dead, s, y, w.p.writer.NotWriting?);
  }

  lemma TaskKept(k: State, t: Tree, dead: seq<Ptr>, s: Step, x: Ptr, idle: bool)
    requires WellFormed(k, t, dead) && Allowed(k, s) && IsLeaf(t, x) && x in k.mem && LeavesAlone(k, s, x, idle)
    ensures x in Apply(k, s).mem && Apply(k, s).mem[x].id == k.mem[x].id
    ensures IsLeaf(TreeAfter(k, t, dead, s), x)
    ensures !idle && Apply(k, s).mem[x].state.Blocked? ==>
              && k.mem[x].state.Blocked?
              && Apply(k, s).mem[x].deadline == k.mem[x].deadline && Apply(k, s).mem[x].blockedOn == k.mem[x].blockedOn
  {
    hide WellFormed, Apply, TreeAfter;
    if Others(k, s, x) {
      OthersOnlyWake(k, t, dead, s, x);
    } else {
      OwnSections(k, t, dead, s, x);
    }
  }

  lemma ActIsSound(w: World, t: Tree, dead: seq<Ptr>, r: Ptr, y: Ptr, a: Move) returns (t': Tree, dead': seq<Ptr>)
    requires Sound(w, t, dead, r, y) && Enabled(w, r, y, a)
    ensures Sound(Act(w, a), t', dead', r, y)
  {
    hide WellFormed, Apply;
    t', dead' := t, dead;
    match a
    case ReaderSection => ReaderTurnIsSound(w, t, dead, r, y);
    case WriterSection => WriterTurnIsSound(w, t, dead, r, y);
    case IsrPush(bytes) => QueueIsOrdered(w.p, bytes, 0);
    case Deliver(id) => DeliverIsSound(w, t, dead, r, y, id);
    case Kernel(s) =>
      KernelIsSound(w, t, dead, r, y, s);
      t', dead' := TreeAfter(w.k, t, dead, s), DeadAfter(w.k, dead, s);
    case _ =>
  }

  // ----- every interleaving

  function Play(w: World, moves: seq<Move>): World {
    if moves == [] then w else Act(Play(w, moves[..|moves| - 1]), moves[|moves| - 1])
  }

  ghost predicate Playable(w: World, r: Ptr, y: Ptr, moves: seq<Move>) {
    forall i | 0 <= i < |moves| :: r in Play(w, moves[..i]).k.mem && y in Play(w, moves[..i]).k.mem
                                   ==> Enabled(Play(w, moves[..i]), r, y, moves[i])
  }

  /** A reader is blocked beside bytes only while a producer is between its push and its set
      or a wake for the reader is in flight; a writer is blocked beside room only while a
      consumer is between its pop and its set or a wake for the writer is in flight; and the
      bytes read so far followed by the bytes buffered are the bytes accepted. */
  lemma {:induction false} NobodyIsStranded(w: World, t: Tree, dead: seq<Ptr>, r: Ptr, y: Ptr, moves: seq<Move>)
    returns (t': Tree, dead': seq<Ptr>)
    requires Sound(w, t, dead, r, y) && Playable(w, r, y, moves)
    ensures Sound(Play(w, moves), t', dead', r, y)
    ensures var w' := Play(w, moves);
            && r in w'.k.mem && y in w'.k.mem
            && (w'.p.reader.AwaitingData? && w'.k.mem[r].state.Blocked? && w'.p.queue != [] ==>
                  w'.p.dataDue > 0 || w'.k.mem[r].id in w'.wakes)
            && (w'.p.writer.AwaitingSpace? && w'.k.mem[y].state.Blocked? && |w'.p.queue| < CAPACITY ==>
                  w'.p.spaceDue > 0 || w'.k.mem[y].id in w'.wakes)
            && w'.p.accepted == w'.p.popped + w'.p.queue && |w'.p.queue| <= CAPACITY
            && (w'.p.reader.AwaitingData? ==> Timed(w'.k, r, w'.p.reader.deadline))
            && (w'.p.writer.AwaitingSpace? ==> Timed(w'.k, y, w'.p.writer.deadline))
  {
    hide WellFormed, Act, Enabled, Timed;
    if moves == [] {
      t', dead' := t, dead;
    } else {
      var before, a := moves[..|moves| - 1], moves[|moves| - 1];
      forall i | 0 <= i < |before| && r in Play(w, before[..i]).k.mem && y in Play(w, before[..i]).k.mem
        ensures Enabled(Play(w, before[..i]), r, y, before[i])
      {
        assert before[..i] == moves[..i];
      }
      t', dead' := NobodyIsStranded(w, t, dead, r, y, before);
      assert moves[..|moves| - 1] == before && Enabled(Play(w, before), r, y, a);
      t', dead' := ActIsSound(Play(w, before), t', dead', r, y, a);
    }
  }

  function NewPipe(): Pipe {
    Pipe([], [], [], Signal(false, 0), Signal(false, 0), 0, 0, NotReading, NotWriting)
  }

  /** And this from init on, for a new pipe between any two living tasks. */
  lemma NobodyIsStrandedFromInit(r: Ptr, a: Ptr, steps: seq<Step>, x: Ptr, y: Ptr, moves: seq<Move>)
    requires r != NULL && a != NULL && r != a && Legal(Init(r, a), steps)
    requires LivingTask(Run(Init(r, a), steps), x) && LivingTask(Run(Init(r, a), steps), y) && x != y
    requires Playable(World.World(Run(Init(r, a), steps), NewPipe(), multiset{}), x, y, moves)
    ensures var w := Play(World.World(Run(Init(r, a), steps), NewPipe(), multiset{}), moves);
            && x in w.k.mem && y in w.k.mem
            && (w.p.reader.AwaitingData? && w.k.mem[x].state.Blocked? && w.p.queue != [] ==>
                  w.p.dataDue > 0 || w.k.mem[x].id in w.wakes)
            && (w.p.writer.AwaitingSpace? && w.k.mem[y].state.Blocked? && |w.p.queue| < CAPACITY ==>
                  w.p.spaceDue > 0 || w.k.mem[y].id in w.wakes)
            && w.p.accepted == w.p.popped + w.p.queue && |w.p.queue| <= CAPACITY
  {
    hide WellFormed, Run, Init, Play, Playable;
    var t, dead := RunWellFormed(r, a, steps);
    var w := World.World(Run(Init(r, a), steps), NewPipe(), multiset{});
    LivingIsLeaf(w.k, t, dead, x);
    LivingIsLeaf(w.k, t, dead, y);
    assert Sound(w, t, dead, x, y);
    t, dead := NobodyIsStranded(w, t, dead, x, y, moves);
  }

  // ----- timeouts

  /** A turn of a waiting reader goes back to popping if and only if it found the data flag up,
      gives up if and only if it did not and the deadline is past, and otherwise blocks the
      reader until exactly that deadline, registered under a lowered flag. */
  lemma ReaderTurnDecides(w: World, t: Tree, dead: seq<Ptr>, r: Ptr, y: Ptr)
    requires Sound(w, t, dead, r, y) && Enabled(w, r, y, ReaderSection) && w.p.reader.AwaitingData?
    ensures var w', d := ReaderTurn(w), w.p.reader.deadline;
            var past := d != 0 && d <= w.k.ticks;
            && r in w'.k.mem
            && (w'.p.reader == Popping(w.p.reader.room, d) <==> w.p.data.raised)
            && (w'.p.reader == NotReading <==> !w.p.data.raised && past)
            && (w'.p.reader == w.p.reader <==> !w.p.data.raised && !past)
            && (w'.p.reader == w.p.reader ==>
                  && w'.k.mem[r].state.Blocked? && Timed(w'.k, r, d) && w'.p.data == Signal(false, w.k.mem[r].id))
  {
    hide WellFormed;
  }

  /** The same for a waiting writer and the space flag. */
  lemma WriterTurnDecides(w: World, t: Tree, dead: seq<Ptr>, r: Ptr, y: Ptr)
    requires Sound(w, t, dead, r, y) && Enabled(w, r, y, WriterSection) && w.p.writer.AwaitingSpace?
    ensures var w', d := WriterTurn(w), w.p.writer.deadline;
            var past := d != 0 && d <= w.k.ticks;
            && y in w'.k.mem
            && (w'.p.writer == Pushing(w.p.writer.rest, d) <==> w.p.space.raised)
            && (w'.p.writer == NotWriting <==> !w.p.space.raised && past)
            && (w'.p.writer == w.p.writer <==> !w.p.space.raised && !past)
            && (w'.p.writer == w.p.writer ==>
                  && w'.k.mem[y].state.Blocked? && Timed(w'.k, y, d) && w'.p.space == Signal(false, w.k.mem[y].id))
  {
    hide WellFormed;
  }

  /** The sweep of each tick reaches both tasks. */
  ghost predicate Reached(w: World, r: Ptr, y: Ptr, moves: seq<Move>) {
    forall i | 0 <= i < |moves| && moves[i] == Move.Kernel(TickStep) :: SweepReaches(Play(w, moves[..i]).k, r, y)
  }

  ghost predicate SweepReaches(k: State, r: Ptr, y: Ptr) {
    r in Visited(SweepState(k)) && y in Visited(SweepState(k))
  }

  /** Whoever is blocked on a signal with a deadline has it still ahead. */
  ghost predicate OnTime(w: World, r: Ptr, y: Ptr)
    requires r in w.k.mem && y in w.k.mem
  {
    && (w.p.reader.AwaitingData? && w.k.mem[r].state.Blocked? && w.p.reader.deadline != 0 ==> w.k.ticks < w.p.reader.deadline)
    && (w.p.writer.AwaitingSpace? && w.k.mem[y].state.Blocked? && w.p.writer.deadline != 0 ==> w.k.ticks < w.p.writer.deadline)
  }

  lemma StepStaysAhead(k: State, t: Tree, dead: seq<Ptr>, s: Step, x: Ptr, d: nat)
    requires WellFormed(k, t, dead) && Allowed(k, s) && Others(k, s, x) && IsLeaf(t, x) && x in k.mem
    requires k.mem[x].state.Blocked? && d != 0 ==> k.mem[x].deadline == d && k.ticks < d
    requires s == TickStep ==> x in Visited(SweepState(k))
    ensures x in Apply(k, s).mem
    ensures Apply(k, s).mem[x].state.Blocked? && d != 0 ==> Apply(k, s).ticks < d
  {
    hide WellFormed, Apply, Visited, SweepState, OthersMade;
    OthersOnlyWake(k, t, dead, s, x);
    OthersGive(k.mem[x], Apply(k, s).mem[x]);
    LeafKind(k, t, dead, x);
    TicksGrow(k, s);
    if s.TickStep? && k.mem[x].state.Blocked? && d != 0 {
      Executor.TickKeepsSleep(k, t, dead, x, d);
    }
  }

  lemma ActStaysOnTime(w: World, t: Tree, dead: seq<Ptr>, r: Ptr, y: Ptr, a: Move)
    requires Sound(w, t, dead, r, y) && Enabled(w, r, y, a) && OnTime(w, r, y)
    requires a == Move.Kernel(TickStep) ==> SweepReaches(w.k, r, y)
    ensures r in Act(w, a).k.mem && y in Act(w, a).k.mem && OnTime(Act(w, a), r, y)
  {
    hide WellFormed, Apply, Visited, SweepState, WakeTask;
    match a
    case ReaderSection => ReaderTurnIsSound(w, t, dead, r, y);
    case WriterSection => WriterTurnIsSound(w, t, dead, r, y);
    case Deliver(id) =>
      WakeIsAStep(w.k, id);
      if w.p.reader.AwaitingData? { StepStaysAhead(w.k, t, dead, WakeStep(id), r, w.p.reader.deadline); }
      if w.p.writer.AwaitingSpace? { StepStaysAhead(w.k, t, dead, WakeStep(id), y, w.p.writer.deadline); }
      DeliverIsSound(w, t, dead, r, y, id);
    case Kernel(s) =>
      if w.p.reader.AwaitingData? { StepStaysAhead(w.k, t, dead, s, r, w.p.reader.deadline); }
      if w.p.writer.AwaitingSpace? { StepStaysAhead(w.k, t, dead, s, y, w.p.writer.deadline); }
      KernelIsSound(w, t, dead, r, y, s);
    case _ =>
  }

  lemma WakeIsAStep(k: State, id: nat)
    ensures WakeTask(k, id) == Apply(k, WakeStep(id)) && Allowed(k, WakeStep(id))
  {
  }

  /** Provided the sweeps reach them, neither a reader nor a writer is ever left blocked past the
      deadline it asked for. */
  lemma {:induction false} WaitsEndOnTime(w: World, t: Tree, dead: seq<Ptr>, r: Ptr, y: Ptr, moves: seq<Move>)
    requires Sound(w, t, dead, r, y) && Playable(w, r, y, moves) && Reached(w, r, y, moves) && OnTime(w, r, y)
    ensures var w' := Play(w, moves);
            r in w'.k.mem && y in w'.k.mem && OnTime(w', r, y)
  {
    hide WellFormed, Act, Enabled, OnTime, SweepReaches, Timed, Registered;
    if moves != [] {
      var before, a := moves[..|moves| - 1], moves[|moves| - 1];
      forall i | 0 <= i < |before|
        ensures r in Play(w, before[..i]).k.mem && y in Play(w, before[..i]).k.mem ==> Enabled(Play(w, before[..i]), r, y, before[i])
        ensures before[i] == Move.Kernel(TickStep) ==> SweepReaches(Play(w, before[..i]).k, r, y)
      {
        assert before[..i] == moves[..i];
      }
      WaitsEndOnTime(w, t, dead, r, y, before);
      var t', dead' := NobodyIsStranded(w, t, dead, r, y, before);
      assert moves[..|moves| - 1] == before && Enabled(Play(w, before), r, y, a);
      ActStaysOnTime(Play(w, before), t', dead', r, y, a);
    }
  }
}
