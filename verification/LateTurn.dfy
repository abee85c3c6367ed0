/**
  A legal run after which three tasks with one-tick slices are left, all can run, and one of
  them is not current within two ticks: a task that exits leaves the cursor on its successor,
  the switch after it picks somebody further on without moving the cursor, and that somebody
  then gets a second turn ahead of the successor.
 */
module LateTurn {
  import opened Tree
  import opened Memory
  import opened Dispatch
  import opened Walk
  import opened Climb
  import opened Lifecycle
  import opened Blocking
  import opened Rings
  import opened Timeline
  import opened Soundness
  import opened Invariant
  import opened Runs
  import opened Ledger
  import opened Waiting
  import opened Rotation
  import Deadlines

  // ----- a tick and a switch in a ring of leaves, by hand

  /** The turn is y's: armed, under the cursor, on the CPU. */
  function TurnTo(k: State, m: Mem, r: Ptr, y: Ptr): State
    requires r in m && y in m
  {
    var armed := SetCursor(ArmIfNeeded(m, y), r, y);
    if y == k.current then k.(mem := armed)
    else k.(mem := HandOver(armed, k.current, y), current := y, switches := k.switches + 1)
  }

  /** The group r and the task y behind its cursor, as far as a switch looks at them. */
  predicate InLine(m: Mem, r: Ptr, y: Ptr) {
    && NULL !in m && r in m && y in m && r != y
    && m[r].kind.Group? && m[r].parent == NULL && m[r].remaining > 0
    && Linked(m, m[r].head) && Linked(m, m[r].cursor)
    && m[m[r].cursor].parent == r && m[m[r].cursor].next == y
    && m[y].kind.Leaf? && Runnable(m, y) && Linked(m, y)
  }

  lemma AdvancesTo(m: Mem, r: Ptr, y: Ptr, limit: nat)
    requires InLine(m, r, y) && limit >= 2
    ensures r in ArmIfNeeded(m, y)
    ensures AdvanceFrom(m, r, limit, limit) == (SetCursor(ArmIfNeeded(m, y), r, y), y)
  {
    assert DescendAndArm(m, y, limit) == (ArmIfNeeded(m, y), y);
    assert ScanStart(m, r) == y;
  }

  lemma PathOfTwo(m: Mem, r: Ptr, c: Ptr, limit: nat)
    requires NULL !in m && r in m && c in m && c != r && m[c].parent == r && m[r].parent == NULL
    requires limit >= 2 && m[r].remaining > 0
    ensures OutermostExhausted(m, c, NULL, limit) == if m[c].remaining == 0 then c else NULL
  {
    var found := if m[c].remaining == 0 then c else NULL;
    assert OutermostExhausted(m, NULL, found, limit - 2) == found;
    assert OutermostExhausted(m, r, found, limit - 1) == found;
  }

  /** A switch away from a task that is spent or blocked. */
  lemma SwitchesTo(k: State, r: Ptr, y: Ptr)
    requires InLine(k.mem, r, y) && k.root == r && k.current in k.mem && k.current != r
    requires k.mem[k.current].parent == r && Linked(k.mem, k.current)
    requires k.mem[k.current].remaining == 0 || !Runnable(k.mem, k.current)
    ensures ScheduleNext(k).0 == TurnTo(k, k.mem, r, y)
  {
    hide AdvanceFrom, RetireSpent, OutermostExhausted;
    PathOfTwo(k.mem, r, k.current, WalkLimit(k.nodes));
    NothingBetween(k.mem, k.current, WalkLimit(k.nodes) + 1);
    AdvancesTo(k.mem, r, y, WalkLimit(k.nodes));
  }

  lemma {:induction false} NobodyIsDue(m: Mem, visited: seq<Ptr>, now: nat)
    requires forall x | x in m :: !Expired(m[x], now)
    ensures Sweep(m, visited, ExpireOne(now)) == m
    decreases |visited|
  {
    if visited != [] {
      assert visited[0] in m ==> m[visited[0] := ExpireOne(now)(m[visited[0]])] == m;
      NobodyIsDue(m, visited[1..], now);
    }
  }

  /** A tick spent by the current task and its group. */
  function AfterTick(k: State, r: Ptr): State
    requires r in k.mem && k.current in k.mem
  {
    var m := k.mem[k.current := Spent(k.mem[k.current])];
    k.(ticks := k.ticks + 1, mem := m[r := Spent(m[r])])
  }

  lemma TicksTo(k: State, r: Ptr, y: Ptr)
    requires r in k.mem && k.current in k.mem && k.current != r && k.root == r && NULL !in k.mem
    requires k.mem[k.current].parent == r && Linked(k.mem, k.current) && k.mem[k.current].remaining == 1
    requires InLine(AfterTick(k, r).mem, r, y)
    requires forall x | x in AfterTick(k, r).mem :: !Expired(AfterTick(k, r).mem[x], k.ticks + 1)
    ensures Tick(k).0 == TurnTo(AfterTick(k, r), AfterTick(k, r).mem, r, y)
  {
    hide ScheduleNext, Sweep;
    var m := AfterTick(k, r).mem;
    DrainsTwo(k, r, WalkLimit(k.nodes));
    NobodyIsDue(m, Visited(AfterTick(k, r)), k.ticks + 1);
    assert OnTick(k) == AfterTick(k, r);
    SwitchesTo(AfterTick(k, r), r, y);
  }

  lemma DrainsTwo(k: State, r: Ptr, limit: nat)
    requires r in k.mem && k.current in k.mem && k.current != r && NULL !in k.mem && limit >= 2
    requires k.mem[k.current].parent == r && k.mem[r].parent == NULL
    ensures DrainPath(k.mem, k.current, limit) == AfterTick(k, r).mem
  {
    var m := AfterTick(k, r).mem;
    assert DrainPath(m, NULL, limit - 2) == m;
  }

  // ----- the run

  function Node(id: nat, next: Ptr, prev: Ptr, remaining: nat): Tcb {
    Tcb(Leaf, Ready, false, next, prev, id, 1, remaining, 0, 0, 1, NULL, NULL)
  }

  function Root(head: Ptr, cursor: Ptr, remaining: nat): Tcb {
    Tcb(Group, Ready, false, NULL, NULL, 0, U32_MAX, remaining, 0, 0, NULL, head, cursor)
  }

  function On(c: Tcb): Tcb { c.(state := Running) }

  function Asleep(c: Tcb): Tcb { c.(state := Blocked, blockedOn := 7) }

  /** The kernel with four tasks. */
  function Four(root: Tcb, two: Tcb, five: Tcb, four: Tcb, three: Tcb, current: Ptr, ticks: nat, switches: nat): State {
    State(map[1 := root, 2 := two, 5 := five, 4 := four, 3 := three],
          1, current, 5, NULL, ticks, switches, 5, 4, 4, 0, 5, 0)
  }

  function Spawned(): State {
    Four(Root(2, 2, U32_MAX), On(Node(1, 5, 3, 1)), Node(4, 4, 2, 1), Node(3, 3, 5, 1), Node(2, 2, 4, 1), 2, 0, 0)
  }

  function FiveRuns(): State {
    Four(Root(2, 5, U32_MAX - 1), Node(1, 5, 3, 0), On(Node(4, 4, 2, 1)), Node(3, 3, 5, 1), Node(2, 2, 4, 1), 5, 1, 1)
  }

  function FiveBlocked(): State {
    Four(Root(2, 5, U32_MAX - 1), Node(1, 5, 3, 0), Asleep(Node(4, 4, 2, 1)), Node(3, 3, 5, 1), Node(2, 2, 4, 1), 5, 1, 1)
  }

  function FourRuns(): State {
    Four(Root(2, 4, U32_MAX - 1), Node(1, 5, 3, 0), Asleep(Node(4, 4, 2, 1)), On(Node(3, 3, 5, 1)), Node(2, 2, 4, 1), 4, 1, 2)
  }

  function ThreeRuns(): State {
    Four(Root(2, 3, U32_MAX - 2), Node(1, 5, 3, 0), Asleep(Node(4, 4, 2, 1)), Node(3, 3, 5, 0), On(Node(2, 2, 4, 1)), 3, 2, 3)
  }

  function TwoRuns(): State {
    Four(Root(2, 2, U32_MAX - 3), On(Node(1, 5, 3, 1)), Asleep(Node(4, 4, 2, 1)), Node(3, 3, 5, 0), Node(2, 2, 4, 0), 2, 3, 4)
  }

  /** And with three, after task 2 has left. */
  function Three(root: Tcb, five: Tcb, four: Tcb, three: Tcb, current: Ptr, ticks: nat, switches: nat): State {
    State(map[1 := root, 2 := Node(1, NULL, NULL, 1).(state := TaskState.Dead), 5 := five, 4 := four, 3 := three],
          1, current, 5, 2, ticks, switches, 5, 4, 3, 0, 5, 0)
  }

  function TwoLeft(): State {
    Three(Root(5, 5, U32_MAX - 3), Asleep(Node(4, 4, 3, 1)), Node(3, 3, 5, 0), Node(2, 5, 4, 0), NULL, 3, 4)
  }

  function FourEnters(): State {
    Three(Root(5, 5, U32_MAX - 3), Asleep(Node(4, 4, 3, 1)), On(Node(3, 3, 5, 1)), Node(2, 5, 4, 0), 4, 3, 5)
  }

  /** Three tasks, all runnable; the cursor is at 5, and 4 is on the CPU. */
  function FiveWoken(): State {
    Three(Root(5, 5, U32_MAX - 3), Node(4, 4, 3, 1).(woken := true), On(Node(3, 3, 5, 1)), Node(2, 5, 4, 0), 4, 3, 5)
  }

  function Steps(): seq<Step> {
    [SpawnStep(1, 1, Granted(3)), SpawnStep(1, 1, Granted(4)), SpawnStep(1, 1, Granted(5)),
     TickStep, BlockStep(7, 0, false), SwitchStep, TickStep, TickStep, ExitStep, SwitchStep, WakeStep(4)]
  }

  lemma FirstSpawns()
    ensures var k := Init(1, 2);
            var k1 := Apply(k, Steps()[0]);
            var k2 := Apply(k1, Steps()[1]);
            && Allowed(k, Steps()[0]) && Allowed(k1, Steps()[1]) && Allowed(k2, Steps()[2])
            && Apply(k2, Steps()[2]) == Spawned()
  {
    var k3 := WithThree();
    var k4 := WithFour();
    assert Apply(Init(1, 2), Steps()[0]).mem == k3.mem;
    FourJoins();
    FiveJoins();
  }

  function WithThree(): State {
    State(map[1 := Root(2, 2, U32_MAX), 2 := On(Node(1, 3, 3, 1)), 3 := Node(2, 2, 2, 1)], 1, 2, 3, 0, 0, 0, 3, 2, 2, 0, 3, 0)
  }

  function WithFour(): State {
    State(map[1 := Root(2, 2, U32_MAX), 2 := On(Node(1, 4, 3, 1)), 4 := Node(3, 3, 2, 1), 3 := Node(2, 2, 4, 1)],
          1, 2, 4, 0, 0, 0, 4, 3, 3, 0, 4, 0)
  }

  /** A task at slot, spawned behind the root's cursor c. */
  function Joined(k: State, c: Ptr, slot: Ptr): State {
    var m := InsertAfter(k.mem[slot := NewTcb(k, Leaf, k.root, 1)], c, slot);
    k.(mem := m, ringHead := slot, nodes := k.nodes + 1, nextId := k.nextId + 1, total := k.total + 1, active := k.active + 1)
  }

  lemma JoinsBehind(k: State, c: Ptr, slot: Ptr)
    requires k.root in k.mem && slot !in k.mem && NULL !in k.mem && c != k.root
    requires k.mem[k.root].cursor == c && k.mem[k.root].head != NULL && c != NULL
    requires c in k.mem && k.mem[c].next in k.mem && k.mem[c].next != k.root && k.mem[c].parent == k.root
    ensures Apply(k, SpawnStep(k.root, 1, Granted(slot))) == Joined(k, c, slot)
  {
    var k1 := k.(mem := k.mem[slot := NewTcb(k, Leaf, k.root, 1)], nodes := k.nodes + 1, nextId := k.nextId + 1);
    var m := InsertAfter(k1.mem, c, slot);
    assert m[k.root] == k.mem[k.root];
    assert m[k.root := m[k.root]] == m;
    assert InsertChild(k1, k.root, slot).mem == m;
  }

  lemma FourJoins()
    ensures Allowed(WithThree(), Steps()[1]) && Apply(WithThree(), Steps()[1]) == WithFour()
  {
    JoinsBehind(WithThree(), 2, 4);
    assert Joined(WithThree(), 2, 4).mem == WithFour().mem;
  }

  lemma FiveJoins()
    ensures Allowed(WithFour(), Steps()[2]) && Apply(WithFour(), Steps()[2]) == Spawned()
  {
    JoinsBehind(WithFour(), 2, 5);
    assert Joined(WithFour(), 2, 5).mem == Spawned().mem;
  }

  lemma TickToFive()
    ensures Apply(Spawned(), TickStep) == FiveRuns()
  {
    hide Tick, InLine, TurnTo, AfterTick, Spawned, FiveRuns;
    TickToFiveInLine();
    TickToFiveTurns();
    TicksTo(Spawned(), 1, 5);
  }

  lemma TickToFiveInLine()
    ensures var k := Spawned();
            && 1 in k.mem && k.current in k.mem && k.current != 1 && k.root == 1 && NULL !in k.mem
            && k.mem[k.current].parent == 1 && Linked(k.mem, k.current) && k.mem[k.current].remaining == 1
            && InLine(AfterTick(k, 1).mem, 1, 5)
            && (forall x | x in AfterTick(k, 1).mem :: !Expired(AfterTick(k, 1).mem[x], k.ticks + 1))
  {
  }

  lemma TickToFiveTurns()
    ensures var k := Spawned();
            1 in k.mem && k.current in k.mem && 1 in AfterTick(k, 1).mem && 5 in AfterTick(k, 1).mem
            && TurnTo(AfterTick(k, 1), AfterTick(k, 1).mem, 1, 5) == FiveRuns()
  {
    assert TurnTo(AfterTick(Spawned(), 1), AfterTick(Spawned(), 1).mem, 1, 5).mem == FiveRuns().mem;
  }

  lemma FiveBlocks()
    ensures Apply(FiveRuns(), BlockStep(7, 0, false)) == FiveBlocked()
  {
    assert Apply(FiveRuns(), BlockStep(7, 0, false)).mem == FiveBlocked().mem;
  }

  lemma SwitchToFour()
    ensures Apply(FiveBlocked(), SwitchStep) == FourRuns()
  {
    var k := FiveBlocked();
    SwitchesTo(k, 1, 4);
    assert TurnTo(k, k.mem, 1, 4).mem == FourRuns().mem;
  }

  lemma TickToThree()
    ensures Apply(FourRuns(), TickStep) == ThreeRuns()
  {
    hide Tick, InLine, TurnTo, AfterTick, FourRuns, ThreeRuns;
    TickToThreeInLine();
    TickToThreeTurns();
    TicksTo(FourRuns(), 1, 3);
  }

  lemma TickToThreeInLine()
    ensures var k := FourRuns();
            && 1 in k.mem && k.current in k.mem && k.current != 1 && k.root == 1 && NULL !in k.mem
            && k.mem[k.current].parent == 1 && Linked(k.mem, k.current) && k.mem[k.current].remaining == 1
            && InLine(AfterTick(k, 1).mem, 1, 3)
            && (forall x | x in AfterTick(k, 1).mem :: !Expired(AfterTick(k, 1).mem[x], k.ticks + 1))
  {
  }

  lemma TickToThreeTurns()
    ensures var k := FourRuns();
            1 in k.mem && k.current in k.mem && 1 in AfterTick(k, 1).mem && 3 in AfterTick(k, 1).mem
            && TurnTo(AfterTick(k, 1), AfterTick(k, 1).mem, 1, 3) == ThreeRuns()
  {
    assert TurnTo(AfterTick(FourRuns(), 1), AfterTick(FourRuns(), 1).mem, 1, 3).mem == ThreeRuns().mem;
  }

  lemma TickToTwo()
    ensures Apply(ThreeRuns(), TickStep) == TwoRuns()
  {
    hide Tick, InLine, TurnTo, AfterTick, ThreeRuns, TwoRuns;
    TickToTwoInLine();
    TickToTwoTurns();
    TicksTo(ThreeRuns(), 1, 2);
  }

  lemma TickToTwoInLine()
    ensures var k := ThreeRuns();
            && 1 in k.mem && k.current in k.mem && k.current != 1 && k.root == 1 && NULL !in k.mem
            && k.mem[k.current].parent == 1 && Linked(k.mem, k.current) && k.mem[k.current].remaining == 1
            && InLine(AfterTick(k, 1).mem, 1, 2)
            && (forall x | x in AfterTick(k, 1).mem :: !Expired(AfterTick(k, 1).mem[x], k.ticks + 1))
  {
  }

  lemma TickToTwoTurns()
    ensures var k := ThreeRuns();
            1 in k.mem && k.current in k.mem && 1 in AfterTick(k, 1).mem && 2 in AfterTick(k, 1).mem
            && TurnTo(AfterTick(k, 1), AfterTick(k, 1).mem, 1, 2) == TwoRuns()
  {
    assert TurnTo(AfterTick(ThreeRuns(), 1), AfterTick(ThreeRuns(), 1).mem, 1, 2).mem == TwoRuns().mem;
  }

  lemma TwoLeaves()
    ensures Allowed(TwoRuns(), ExitStep) && Apply(TwoRuns(), ExitStep) == TwoLeft()
  {
    assert Apply(TwoRuns(), ExitStep).mem == TwoLeft().mem;
  }

  /** The null-current branch: somebody behind the cursor, and the cursor stays. */
  lemma SwitchEntersFour()
    ensures Apply(TwoLeft(), SwitchStep) == FourEnters()
  {
    var k, m := TwoLeft(), TwoLeft().mem;
    assert ResumeChild(m, 1) == 4;
    assert DescendAndArm(m, 4, WalkLimit(k.nodes)) == (ArmIfNeeded(m, 4), 4);
    assert PickNextLeaf(m, 1, NULL, WalkLimit(k.nodes)) == (ArmIfNeeded(m, 4), 4);
    assert Apply(k, SwitchStep).mem == FourEnters().mem;
  }

  lemma FiveIsWoken()
    ensures Apply(FourEnters(), WakeStep(4)) == FiveWoken()
  {
    hide Sweep, Visited;
    var k := FourEnters();
    HeadIsVisited(k);
    CallbacksRouse(0, 4, 0);
    Deadlines.CallbacksIdempotent(0, 4, 0);
    SweepRouses(k.mem, Visited(k), WakeOne(4));
    forall x | x in k.mem ensures Sweep(k.mem, Visited(k), WakeOne(4))[x] == FiveWoken().mem[x] {
      Deadlines.SweepExact(k.mem, Visited(k), WakeOne(4), x);
    }
    assert Apply(k, WakeStep(4)).mem == FiveWoken().mem;
  }

  lemma HeadIsVisited(k: State)
    requires k.root in k.mem && Linked(k.mem, k.mem[k.root].head)
    ensures k.mem[k.root].head in Visited(k)
  {
  }

  lemma Reached()
    ensures Legal(Init(1, 2), Steps()) && Run(Init(1, 2), Steps()) == FiveWoken()
  {
    hide Apply, Init, Run, Legal, Spawned, FiveRuns, FiveBlocked, FourRuns, ThreeRuns, TwoRuns, TwoLeft, FourEnters,
         FiveWoken;
    var k := Init(1, 2);
    NoStep(k);
    FirstSpawns();
    var p: seq<Step> := [];
    var three, four, five := SpawnStep(1, 1, Granted(3)), SpawnStep(1, 1, Granted(4)), SpawnStep(1, 1, Granted(5));
    RunGoesOn(k, p, three);
    p := p + [three];
    RunGoesOn(k, p, four);
    p := p + [four];
    RunGoesOn(k, p, five);
    p := p + [five];
    TickToFive();
    RunGoesOn(k, p, TickStep);
    p := p + [TickStep];
    FiveBlocks();
    RunGoesOn(k, p, BlockStep(7, 0, false));
    p := p + [BlockStep(7, 0, false)];
    SwitchToFour();
    RunGoesOn(k, p, SwitchStep);
    p := p + [SwitchStep];
    TickToThree();
    RunGoesOn(k, p, TickStep);
    p := p + [TickStep];
    TickToTwo();
    RunGoesOn(k, p, TickStep);
    p := p + [TickStep];
    TwoLeaves();
    RunGoesOn(k, p, ExitStep);
    p := p + [ExitStep];
    SwitchEntersFour();
    RunGoesOn(k, p, SwitchStep);
    p := p + [SwitchStep];
    FiveIsWoken();
    RunGoesOn(k, p, WakeStep(4));
    assert p + [WakeStep(4)] == Steps();
  }

  lemma NoStep(k: State)
    ensures Legal(k, []) && Run(k, []) == k
  {
  }

  // ----- what is wrong with it

  ghost function ThreeLeft(): Tree {
    Tree(1, map[1 := Info(NULL, 0, 0, U32_MAX), 5 := Info(1, 0, 1, 1), 4 := Info(1, 1, 1, 1), 3 := Info(1, 2, 1, 1)],
         map[1 := [5, 4, 3]], 2)
  }

  lemma ThreeLeftStands()
    ensures Represents(FiveWoken().mem, ThreeLeft())
  {
    var m, t := FiveWoken().mem, ThreeLeft();
    ThreeLeftIsValid();
    forall x | x in t.nodes ensures Holds(m, t, x) {
      assert x == 1 || x == 5 || x == 4 || x == 3;
    }
  }

  lemma ThreeLeftIsValid()
    ensures Valid(ThreeLeft()) && Flat(ThreeLeft())
  {
    var t := ThreeLeft();
    assert KidOk(t, 1, 0) && KidOk(t, 1, 1) && KidOk(t, 1, 2);
    assert NodeOk(t, 1) && NodeOk(t, 5) && NodeOk(t, 4) && NodeOk(t, 3);
  }

  lemma OneGrave()
    ensures Graveyard(FiveWoken().mem, ThreeLeft(), 2, [2])
  {
    var m, t := FiveWoken().mem, ThreeLeft();
    assert Buried(m, t, 2);
    assert Chain(m, 2, [2]) by {
      assert Chain(m, NULL, []);
      assert [2][1..] == [];
    }
  }

  lemma ThreeLeaves()
    ensures |Leaves(ThreeLeft())| == 3
    ensures forall x :: IsLeaf(ThreeLeft(), x) <==> x == 5 || x == 4 || x == 3
  {
    assert Leaves(ThreeLeft()) == {5, 4, 3};
    assert |{5, 4, 3}| == 3;
  }

  lemma ThreeLeftWellFormed()
    ensures WellFormed(FiveWoken(), ThreeLeft(), [2])
  {
    hide Represents, Graveyard, Leaves, Valid, IsLeaf;
    ThreeLeftIsValid();
    ThreeLeftStands();
    OneGrave();
    ThreeLeaves();
  }

  lemma ThreeLeftBustles()
    ensures Bustling(FiveWoken(), ThreeLeft(), [2]) && Unbroken(FiveWoken(), ThreeLeft())
  {
    hide WellFormed, IsLeaf, Flat;
    ThreeLeftIsValid();
    ThreeLeftWellFormed();
    ThreeLeaves();
  }

  lemma TwoOthers()
    ensures Valid(ThreeLeft()) && 5 in ThreeLeft().nodes && OtherSlices(ThreeLeft(), 5) == 2
  {
    var t := ThreeLeft();
    ThreeLeftIsValid();
    assert RingSize(t, 5) == 3;
    OneTickSlices(t, 5, 2);
  }

  /** "(number of tasks - 1) x slice, full stop" is not a bound: three tasks with one-tick
      slices, all runnable, and the next two ticks do not run task 5. */
  lemma TurnsCanComeLate()
    ensures Legal(Init(1, 2), Steps())
    ensures var k := Run(Init(1, 2), Steps());
            && Bustling(k, ThreeLeft(), [2]) && IsLeaf(ThreeLeft(), 5) && OtherSlices(ThreeLeft(), 5) == 2
            && forall n: nat | n <= 2 :: Ticks(k, n).current != 5
  {
    hide Ticks, Steps, Init, Run, Legal, Bustling, Unbroken, OtherSlices, Ahead;
    Reached();
    ThreeLeftBustles();
    TwoOthers();
    assert Cursor(FiveWoken().mem, 1) == 5;
    OtherSlicesAreEnoughIff(FiveWoken(), ThreeLeft(), [2], 5);
  }
}
