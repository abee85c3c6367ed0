/**
  Quantum accounting: what a node has run, plus what it has left, is a whole number of its
  slices.
 */
module Ledger {
  import opened RoundRobin
  import opened Tree
  import opened Memory
  import opened Dispatch
  import opened Walk
  import opened Climb
  import opened Lifecycle
  import opened Blocking
  import opened Growth
  import opened Departure
  import opened Soundness
  import opened Invariant
  import opened Books
  import opened Runs

  /** Ticks spent with the node on the running path, and times its quantum was re-armed. */
  datatype Entry = Entry(ticks: nat, rearms: nat)

  /** The addresses a drain visits: the running node and its ancestors. */
  ghost function PathOf(m: Mem, n: Ptr, budget: nat): set<Ptr>
    decreases budget
  {
    if n !in m || budget == 0 then {} else {n} + PathOf(m, m[n].parent, budget - 1)
  }

  lemma {:induction false} PathIsAncestors(m: Mem, t: Tree, n: Ptr, budget: nat, x: Ptr)
    requires Climbs(m, t) && n in t.nodes && t.nodes[n].level < budget
    ensures x in PathOf(m, n, budget) <==> Above(t, x, n)
    decreases budget
  {
    assert NodeOk(t, n) && n in m;
    if n == t.root {
      assert PathOf(m, NULL, budget - 1) == {};
    } else {
      PathIsAncestors(m, t, ParentOf(t, n), budget - 1, x);
    }
  }

  /** What the middle of a tick (after the drain and the sweep) looks like. */
  ghost function Midway(k: State, s: Step): State {
    if s.TickStep? then OnTick(k) else k
  }

  /** The book-keeping of one step, from what it does to the quanta: a tick is charged to
      the running path, and a quantum that grows has been re-armed.  A block that changes
      hands starts a new page. */
  ghost function Booked(k: State, s: Step, led: map<Ptr, Entry>): map<Ptr, Entry> {
    var mid, k' := Midway(k, s), Apply(k, s);
    map x | x in k'.mem ::
      if x !in k.mem || x !in led then Entry(0, 0)
      else Entry(
        led[x].ticks + (if s.TickStep? && x in PathOf(k.mem, k.current, WalkLimit(k.nodes)) then 1 else 0),
        led[x].rearms + (if Remaining(k'.mem, x) > Remaining(mid.mem, x) then 1 else 0))
  }

  ghost predicate Balanced(k: State, t: Tree, led: map<Ptr, Entry>, x: Ptr) {
    x in t.nodes && x != t.root ==>
      x in led && led[x].ticks + Remaining(k.mem, x) == Times(led[x].rearms + 1, t.nodes[x].slice)
  }

  /** The root has paid for no more ticks than there were. */
  ghost predicate RootPays(k: State, t: Tree) {
    Remaining(k.mem, t.root) + k.ticks >= U32_MAX
  }

  /** The invariant: the books balance, and whoever has the CPU has quantum at every level. */
  ghost predicate Audited(k: State, t: Tree, dead: seq<Ptr>, led: map<Ptr, Entry>) {
    && WellFormed(k, t, dead)
    && (forall x {:trigger Balanced(k, t, led, x)} | x in t.nodes :: Balanced(k, t, led, x))
    && (k.current != NULL ==> Funded(k.mem, t, k.current))
    && RootPays(k, t)
  }

  /** A step that finds nobody to run leaves the CPU idle. */
  predicate Idles(k: State, s: Step) {
    (s.TickStep? && Tick(k).1 == NULL) || (s.SwitchStep? && ScheduleNext(k).1 == NULL)
  }

  // ----- steps that touch no quantum

  ghost predicate SameQuanta(k: State, k': State) {
    && k'.mem.Keys == k.mem.Keys
    && k'.ticks == k.ticks
    && k'.current == k.current
    && forall x {:trigger Remaining(k'.mem, x)} | x in k.mem :: Remaining(k'.mem, x) == Remaining(k.mem, x)
  }

  lemma QuietStep(k: State, t: Tree, dead: seq<Ptr>, led: map<Ptr, Entry>, s: Step)
    requires Audited(k, t, dead, led) && Allowed(k, s)
    requires !s.TickStep? && SameQuanta(k, Apply(k, s)) && WellFormed(Apply(k, s), t, dead)
    ensures Audited(Apply(k, s), t, dead, Booked(k, s, led))
  {
    hide Apply, WellFormed;
    assert Represents(k.mem, t) by { Structure(k, t, dead); }
    var k', led' := Apply(k, s), Booked(k, s, led);
    forall x | x in t.nodes ensures Balanced(k', t, led', x) {
      assert Holds(k.mem, t, x) && Balanced(k, t, led, x);
    }
    assert NodeOk(t, t.root) && Holds(k.mem, t, t.root);
    if k.current != NULL {
      assert IsLeaf(t, k.current) by { Structure(k, t, dead); }
      forall x | Above(t, x, k.current) ensures Remaining(k'.mem, x) > 0 {
        AboveLevel(t, x, k.current);
        assert Holds(k.mem, t, x);
      }
    }
  }

  lemma Structure(k: State, t: Tree, dead: seq<Ptr>)
    requires WellFormed(k, t, dead)
    ensures Represents(k.mem, t) && t.depth <= k.nodes && (k.current == NULL || IsLeaf(t, k.current))
    ensures k.root == t.root
  {
  }

  lemma {:induction false} SweepKeepsQuanta(m: Mem, visited: seq<Ptr>, f: Tcb -> Tcb)
    requires Rouses(f)
    ensures Sweep(m, visited, f).Keys == m.Keys
    ensures forall x :: Remaining(Sweep(m, visited, f), x) == Remaining(m, x)
  {
    SweepRouses(m, visited, f);
    forall x ensures Remaining(Sweep(m, visited, f), x) == Remaining(m, x) {
      if x in m {
        assert RousedNode(m[x], Sweep(m, visited, f)[x]);
      }
    }
  }

  /** Blocking, waking and the flag and timer sections. */
  ghost predicate Quiet(s: Step) {
    || s.BlockStep? || s.TakeFlagStep? || s.ClearTimerStep? || s.SetTimerStep?
    || s.WakeStep? || s.ReleaseStep? || s.WakeFirstStep?
  }

  lemma QuietKeepsQuanta(k: State, s: Step)
    requires Quiet(s)
    ensures SameQuanta(k, Apply(k, s))
  {
    match s
    case WakeStep(id) =>
      CallbacksRouse(0, id, 0);
      SweepKeepsQuanta(k.mem, Visited(k), WakeOne(id));
    case ReleaseStep(resource) =>
      CallbacksRouse(0, 0, resource);
      SweepKeepsQuanta(k.mem, Visited(k), ReleaseOne(resource));
    case _ =>
  }

  // ----- tick and switch

  lemma DrainBooks(k: State, t: Tree, dead: seq<Ptr>, led: map<Ptr, Entry>)
    requires Audited(k, t, dead, led)
    ensures var m := OnTick(k).mem;
            && m.Keys == k.mem.Keys
            && forall x | x in t.nodes :: Remaining(m, x) ==
                 Remaining(k.mem, x) - (if x in PathOf(k.mem, k.current, WalkLimit(k.nodes)) then 1 else 0)
    ensures OnTick(k).current == k.current
  {
    hide Booked, Balanced, DrainPath, PathOf, Sweep;
    Structure(k, t, dead);
    var limit := WalkLimit(k.nodes);
    var m1 := DrainPath(k.mem, k.current, limit);
    var k1 := k.(ticks := k.ticks + 1, mem := m1);
    CallbacksRouse(k1.ticks, 0, 0);
    SweepKeepsQuanta(m1, Visited(k1), ExpireOne(k1.ticks));
    if k.current == NULL {
      IdlePath(k.mem, limit);
    } else {
      PathDrains(k.mem, t, k.current, limit);
    }
  }

  lemma IdlePath(m: Mem, limit: nat)
    requires NULL !in m
    ensures DrainPath(m, NULL, limit) == m && PathOf(m, NULL, limit) == {}
  {
  }

  lemma PathDrains(m: Mem, t: Tree, cur: Ptr, limit: nat)
    requires Represents(m, t) && IsLeaf(t, cur) && t.depth <= limit && Funded(m, t, cur)
    ensures DrainPath(m, cur, limit).Keys == m.Keys
    ensures forall x | x in t.nodes :: Remaining(DrainPath(m, cur, limit), x) ==
              Remaining(m, x) - (if x in PathOf(m, cur, limit) then 1 else 0)
  {
    hide DrainPath, PathOf;
    RepresentsClimbs(m, t);
    assert NodeOk(t, cur);
    DrainSpendsPath(m, t, cur, limit);
    forall x | x in t.nodes ensures Remaining(DrainPath(m, cur, limit), x) ==
              Remaining(m, x) - (if x in PathOf(m, cur, limit) then 1 else 0) {
      PathIsAncestors(m, t, cur, limit, x);
      assert Holds(m, t, x);
    }
  }

  /** A dispatch only arms what is empty, and arms it in full. */
  lemma ScheduleArms(k: State, t: Tree, dead: seq<Ptr>)
    requires WellFormed(k, t, dead)
    ensures ScheduleNext(k).0.mem.Keys == k.mem.Keys
    ensures forall x | x in t.nodes ::
              || Remaining(ScheduleNext(k).0.mem, x) == Remaining(k.mem, x)
              || (Remaining(k.mem, x) == 0 && Remaining(ScheduleNext(k).0.mem, x) == t.nodes[x].slice)
    ensures ScheduleNext(k).0.ticks == k.ticks
  {
    hide PickNextLeaf, HandOver, WellFormed;
    Structure(k, t, dead);
    var limit := WalkLimit(k.nodes);
    if k.current != NULL {
      LinkedLeaf(k.mem, t, k.current);
    }
    PickOffers(k.mem, t, k.current, limit);
    var (m, next) := PickNextLeaf(k.mem, t.root, k.current, limit);
    assert m.Keys == k.mem.Keys;
    var m' := ScheduleNext(k).0.mem;
    if next != NULL {
      assert next in m;
      HandOverQuanta(m, k.current, next);
    }
    assert m'.Keys == m.Keys && forall x :: Remaining(m', x) == Remaining(m, x);
    forall x | x in t.nodes
      ensures || Remaining(m', x) == Remaining(k.mem, x)
              || (Remaining(k.mem, x) == 0 && Remaining(m', x) == t.nodes[x].slice)
    {
      assert Holds(k.mem, t, x) && NodeOk(t, x);
      assert SteppedNode(k.mem[x], m[x], t, x);
    }
  }

  lemma LinkedLeaf(m: Mem, t: Tree, x: Ptr)
    requires Represents(m, t) && IsLeaf(t, x)
    ensures Linked(m, x)
  {
    assert Holds(m, t, x) && After(t, x) != NULL;
  }

  lemma HandOverQuanta(m: Mem, cur: Ptr, next: Ptr)
    requires next in m
    ensures HandOver(m, cur, next).Keys == m.Keys
    ensures forall x :: Remaining(HandOver(m, cur, next), x) == Remaining(m, x)
  {
  }

  lemma DispatchStep(k: State, t: Tree, dead: seq<Ptr>, led: map<Ptr, Entry>, s: Step)
    requires Audited(k, t, dead, led) && (s.TickStep? || s.SwitchStep?) && !Idles(k, s)
    requires Apply(k, s).ticks < U32_MAX
    ensures Audited(Apply(k, s), t, dead, Booked(k, s, led))
  {
    hide OnTick, ScheduleNext, WellFormed, PathOf, Balanced;
    var mid, k', led' := Midway(k, s), Apply(k, s), Booked(k, s, led);
    Structure(k, t, dead);
    assert NodeOk(t, t.root);
    if s.TickStep? {
      OnTickWellFormed(k, t, dead);
      DrainBooks(k, t, dead, led);
      assert mid.ticks == k.ticks + 1 by { TickCounts(k); }
    }
    ScheduleArms(mid, t, dead);
    ScheduleIsSound(mid, t, dead);
    assert Remaining(mid.mem, t.root) > 0;
    assert k'.current != NULL && Funded(k'.mem, t, k'.current) by {
      Structure(k', t, dead);
      assert Budgeted(k'.mem, t, t.root);
      forall x | Above(t, x, k'.current) ensures Remaining(k'.mem, x) > 0 {
        assert x != t.root ==> Budgeted(k'.mem, t, x);
      }
    }
    forall x | x in t.nodes ensures Balanced(k', t, led', x) {
      BalanceStep(k, t, dead, led, s, x);
    }
  }

  lemma TickCounts(k: State)
    ensures OnTick(k).ticks == k.ticks + 1
  {
  }

  lemma BalanceStep(k: State, t: Tree, dead: seq<Ptr>, led: map<Ptr, Entry>, s: Step, x: Ptr)
    requires Audited(k, t, dead, led) && (s.TickStep? || s.SwitchStep?) && x in t.nodes
    requires var mid, k' := Midway(k, s), Apply(k, s);
             && mid.mem.Keys == k.mem.Keys && k'.mem.Keys == k.mem.Keys
             && Remaining(mid.mem, x) + (if s.TickStep? && x in PathOf(k.mem, k.current, WalkLimit(k.nodes)) then 1 else 0)
                == Remaining(k.mem, x)
             && (Remaining(k'.mem, x) == Remaining(mid.mem, x)
                 || (Remaining(mid.mem, x) == 0 && Remaining(k'.mem, x) == t.nodes[x].slice))
    ensures Balanced(Apply(k, s), t, Booked(k, s, led), x)
  {
    hide OnTick, ScheduleNext, WellFormed, PathOf, Apply, Midway;
    Structure(k, t, dead);
    assert Balanced(k, t, led, x) && Holds(k.mem, t, x) && NodeOk(t, x);
  }

  // ----- births, deaths and frees

  lemma {:induction false} SameAncestry(t: Tree, t': Tree, x: Ptr, n: Ptr)
    requires Valid(t) && Valid(t') && t'.root == t.root && n in t.nodes && n in t'.nodes
    requires forall y {:trigger t'.nodes[y]} | y in t.nodes && y in t'.nodes :: t'.nodes[y].parent == t.nodes[y].parent
    ensures Above(t', x, n) <==> Above(t, x, n)
    decreases t.nodes[n].level
  {
    if n != t.root {
      assert t'.nodes[n].parent == t.nodes[n].parent && NodeOk(t', n);
      SameAncestry(t, t', x, ParentOf(t, n));
    }
  }

  /** A step that changes the tree but no quantum of the nodes that stay. */
  lemma TreeStep(k: State, t: Tree, dead: seq<Ptr>, led: map<Ptr, Entry>, k': State, t': Tree, led': map<Ptr, Entry>)
    requires Audited(k, t, dead, led)
    requires Represents(k'.mem, t') && t'.root == t.root && k'.ticks == k.ticks
    requires k'.current == NULL || (k'.current == k.current && IsLeaf(t', k'.current))
    requires forall x {:trigger t'.nodes[x]} | x in t.nodes && x in t'.nodes ::
               && t'.nodes[x].parent == t.nodes[x].parent && t'.nodes[x].slice == t.nodes[x].slice
               && Remaining(k'.mem, x) == Remaining(k.mem, x)
               && (x in led ==> x in led' && led'[x] == led[x])
    requires forall x {:trigger t'.nodes[x]} | x in t'.nodes && x !in t.nodes ::
               x in led' && led'[x] == Entry(0, 0) && Remaining(k'.mem, x) == t'.nodes[x].slice
    ensures forall x {:trigger Balanced(k', t', led', x)} | x in t'.nodes :: Balanced(k', t', led', x)
    ensures k'.current != NULL ==> Funded(k'.mem, t', k'.current)
    ensures RootPays(k', t')
  {
    Structure(k, t, dead);
    assert NodeOk(t, t.root);
    forall x | x in t'.nodes ensures Balanced(k', t', led', x) {
      assert t'.nodes[x] == t'.nodes[x];
      if x in t.nodes {
        assert Balanced(k, t, led, x);
      } else {
        assert Times(1, t'.nodes[x].slice) == t'.nodes[x].slice;
      }
    }
    assert t'.nodes[t.root] == t'.nodes[t.root];
    if k'.current != NULL {
      forall x | Above(t', x, k'.current) ensures Remaining(k'.mem, x) > 0 {
        SameAncestry(t, t', x, k.current);
        AboveLevel(t, x, k.current);
        AboveLevel(t', x, k.current);
        assert t'.nodes[x].parent == t.nodes[x].parent;
      }
    }
  }

  lemma SpawnQuanta(k: State, t: Tree, dead: seq<Ptr>, kind: Kind, g: Ptr, quantum: nat, slot: Ptr)
    requires WellFormed(k, t, dead) && g in t.kids && slot != NULL && slot !in k.mem
    ensures var m' := InsertChild(WithTcb(k, kind, g, quantum, slot), g, slot).mem;
            && m'.Keys == k.mem.Keys + {slot}
            && Remaining(m', slot) == AtLeastOne(quantum)
            && (forall x | x in k.mem :: Remaining(m', x) == Remaining(k.mem, x))
  {
    hide InsertChild;
    var k1 := WithTcb(k, kind, g, quantum, slot);
    SpawnSetsUp(k, t, dead, kind, g, quantum, slot);
    InsertLinks(k1, t, g, slot, AtLeastOne(quantum), kind.Group?);
    var m' := InsertChild(k1, g, slot).mem;
    forall x | x in k1.mem ensures Remaining(m', x) == Remaining(k1.mem, x) {
      assert m'[x] == Linking(k1.mem, t, g, slot, x);
    }
  }

  lemma SpawnBooks(k: State, t: Tree, dead: seq<Ptr>, led: map<Ptr, Entry>, s: Step, kind: Kind, g: Ptr, quantum: nat, slot: Ptr)
    requires Audited(k, t, dead, led) && Allowed(k, s)
    requires s == if kind.Leaf? then SpawnStep(g, quantum, Granted(slot)) else SpawnGroupStep(g, quantum, Granted(slot))
    ensures Audited(Apply(k, s), TreeAfter(k, t, dead, s), DeadAfter(k, dead, s), Booked(k, s, led))
  {
    hide WellFormed, InsertChild, Balanced, Spawning, NewTree, Represents, Funded;
    GroupsAreInTree(k, t, dead, g);
    StepWellFormed(k, t, dead, s);
    var k', t', led' := Apply(k, s), TreeAfter(k, t, dead, s), Booked(k, s, led);
    SpawnQuanta(k, t, dead, kind, g, quantum, slot);
    SpawnSetsUp(k, t, dead, kind, g, quantum, slot);
    InsertedNodes(WithTcb(k, kind, g, quantum, slot).mem, t, g, slot, AtLeastOne(quantum), kind.Group?);
    InsertChildStill(WithTcb(k, kind, g, quantum, slot), g, slot);
    Structure(k, t, dead);
    Structure(k', t', dead);
    NodesInMemory(k.mem, t);
    assert k'.mem == InsertChild(WithTcb(k, kind, g, quantum, slot), g, slot).mem;
    TreeStep(k, t, dead, led, k', t', led');
  }

  lemma InsertChildStill(k: State, g: Ptr, node: Ptr)
    ensures InsertChild(k, g, node).ticks == k.ticks && InsertChild(k, g, node).current == k.current
  {
  }

  lemma ExitBooks(k: State, t: Tree, dead: seq<Ptr>, led: map<Ptr, Entry>)
    requires Audited(k, t, dead, led) && Allowed(k, ExitStep)
    ensures Audited(ExitTask(k), TreeAfter(k, t, dead, ExitStep), DeadAfter(k, dead, ExitStep), Booked(k, ExitStep, led))
  {
    hide WellFormed, ExitTask, Balanced, Pruned;
    Structure(k, t, dead);
    ExitWellFormed(k, t, dead);
    var k', t', led' := ExitTask(k), Pruned(t, k.current), Booked(k, ExitStep, led);
    Structure(k', t', [k.current] + dead);
    ExitLinks(k, t);
    PrunedNodes(t, k.current);
    NodesInMemory(k.mem, t);
    forall x | x in k.mem ensures Remaining(k'.mem, x) == Remaining(k.mem, x) {
      assert k'.mem[x] == Parting(k.mem, t, k.current, k.pending, x);
    }
    ExitStill(k);
    TreeStep(k, t, dead, led, k', t', led');
  }

  lemma ExitStill(k: State)
    requires k.current in k.mem
    ensures ExitTask(k).ticks == k.ticks && ExitTask(k).current == NULL
  {
  }

  lemma ReclaimBooks(k: State, t: Tree, dead: seq<Ptr>, led: map<Ptr, Entry>, pinned: set<Ptr>)
    requires Audited(k, t, dead, led)
    ensures var s := ReclaimStep(pinned);
            Audited(Apply(k, s), t, DeadAfter(k, dead, s), Booked(k, s, led))
  {
    hide WellFormed, ReclaimFinished, Balanced;
    var s := ReclaimStep(pinned);
    var k', led' := ReclaimFinished(k, pinned), Booked(k, s, led);
    ReclaimWellFormed(k, t, dead, pinned);
    Structure(k, t, dead);
    Structure(k', t, Requeued(dead, pinned, []));
    NodesInMemory(k.mem, t);
    NodesInMemory(k'.mem, t);
    TreeStep(k, t, dead, led, k', t, led');
  }

  // ----- the run

  lemma StepAudited(k: State, t: Tree, dead: seq<Ptr>, led: map<Ptr, Entry>, s: Step)
    requires Audited(k, t, dead, led) && Allowed(k, s) && !Idles(k, s) && Apply(k, s).ticks < U32_MAX
    ensures Audited(Apply(k, s), TreeAfter(k, t, dead, s), DeadAfter(k, dead, s), Booked(k, s, led))
  {
    hide WellFormed, Audited, Booked, OnTick, ScheduleNext, ExitTask, ReclaimFinished, Idles, Apply, TreeAfter;
    assert WellFormed(k, t, dead) by { AuditedWellFormed(k, t, dead, led); }
    StepWellFormed(k, t, dead, s);
    TreeStands(k, t, dead, s);
    match s
    case TickStep => DispatchStep(k, t, dead, led, s);
    case SwitchStep => DispatchStep(k, t, dead, led, s);
    case SpawnStep(g, quantum, Granted(slot)) => SpawnBooks(k, t, dead, led, s, Leaf, g, quantum, slot);
    case SpawnGroupStep(g, quantum, Granted(slot)) => SpawnBooks(k, t, dead, led, s, Group, g, quantum, slot);
    case SpawnStep(_, _, _) =>
      FailedSpawnQuiet(k, s);
      QuietStep(k, t, dead, led, s);
    case SpawnGroupStep(_, _, _) =>
      FailedSpawnQuiet(k, s);
      QuietStep(k, t, dead, led, s);
    case ExitStep =>
      ExitBooks(k, t, dead, led);
      ApplyExit(k);
    case ReclaimStep(pinned) => ReclaimBooks(k, t, dead, led, pinned);
    case _ =>
      QuietKeepsQuanta(k, s);
      QuietStep(k, t, dead, led, s);
  }

  lemma AuditedWellFormed(k: State, t: Tree, dead: seq<Ptr>, led: map<Ptr, Entry>)
    requires Audited(k, t, dead, led)
    ensures WellFormed(k, t, dead)
  {
  }

  lemma TreeStands(k: State, t: Tree, dead: seq<Ptr>, s: Step)
    requires WellFormed(k, t, dead) && Allowed(k, s)
    ensures !s.ExitStep? && !(s.SpawnStep? && s.supply.Granted?) && !(s.SpawnGroupStep? && s.supply.Granted?)
            ==> TreeAfter(k, t, dead, s) == t
    ensures !s.ExitStep? && !s.ReclaimStep? ==> DeadAfter(k, dead, s) == dead
  {
  }

  lemma FailedSpawnQuiet(k: State, s: Step)
    requires (s.SpawnStep? || s.SpawnGroupStep?) && !s.supply.Granted?
    ensures SameQuanta(k, Apply(k, s))
  {
  }

  lemma ApplyExit(k: State)
    ensures Apply(k, ExitStep) == ExitTask(k)
  {
  }

  /** The books of a whole run. */
  ghost function Accounts(k: State, steps: seq<Step>): map<Ptr, Entry> {
    if steps == [] then map x | x in k.mem :: Entry(0, 0)
    else
      var before := steps[..|steps| - 1];
      Booked(Run(k, before), steps[|steps| - 1], Accounts(k, before))
  }

  ghost predicate NeverIdle(k: State, steps: seq<Step>) {
    forall i | 0 <= i < |steps| :: !Idles(Run(k, steps[..i]), steps[i])
  }

  lemma InitAudited(r: Ptr, a: Ptr)
    requires r != NULL && a != NULL && r != a
    ensures Audited(Init(r, a), InitTree(r, a), [], Accounts(Init(r, a), []))
  {
    hide WellFormed;
    var k, t, led := Init(r, a), InitTree(r, a), Accounts(Init(r, a), []);
    InitWellFormed(r, a);
    assert Valid(t) by { TreeIsValid(k, t, []); }
    forall x | x in t.nodes ensures Balanced(k, t, led, x) {
      InitBalanced(r, a, x);
    }
    forall x | Above(t, x, a) ensures Remaining(k.mem, x) > 0 {
      AboveLevel(t, x, a);
    }
  }

  lemma InitBalanced(r: Ptr, a: Ptr, x: Ptr)
    requires r != NULL && a != NULL && r != a
    ensures Balanced(Init(r, a), InitTree(r, a), Accounts(Init(r, a), []), x)
  {
    assert Times(0, 1) == 0 && Times(1, 1) == 1;
  }

  lemma NeverIdlePrefix(k: State, steps: seq<Step>)
    requires NeverIdle(k, steps) && steps != []
    ensures NeverIdle(k, steps[..|steps| - 1])
    ensures !Idles(Run(k, steps[..|steps| - 1]), steps[|steps| - 1])
  {
    var before := steps[..|steps| - 1];
    forall i | 0 <= i < |before| ensures !Idles(Run(k, before[..i]), before[i]) {
      assert before[..i] == steps[..i];
    }
  }

  /** Over every legal run of fewer than 2^32 - 1 ticks in which the CPU never goes idle,
      whatever is spawned, blocked, woken or exits: for every node but the root, the ticks
      its subtree has run plus the quantum it has left are its slice times one more than the
      number of times it was re-armed.  So no turn is ever longer than the slice, no turn is
      cut short without the rest being kept, and no quantum is refilled early. */
  lemma {:induction false} QuantaBalance(r: Ptr, a: Ptr, steps: seq<Step>) returns (t: Tree, dead: seq<Ptr>)
    requires r != NULL && a != NULL && r != a && Legal(Init(r, a), steps) && NeverIdle(Init(r, a), steps)
    requires Run(Init(r, a), steps).ticks < U32_MAX
    ensures Audited(Run(Init(r, a), steps), t, dead, Accounts(Init(r, a), steps))
    ensures forall x | x in t.nodes && x != t.root ::
              && x in Accounts(Init(r, a), steps)
              && Accounts(Init(r, a), steps)[x].ticks + Remaining(Run(Init(r, a), steps).mem, x)
                 == (Accounts(Init(r, a), steps)[x].rearms + 1) * t.nodes[x].slice
  {
    hide Audited, Apply, Init, Booked, Idles;
    if steps == [] {
      InitAudited(r, a);
      t, dead := InitTree(r, a), [];
    } else {
      var before, s := steps[..|steps| - 1], steps[|steps| - 1];
      LegalPrefix(Init(r, a), steps);
      NeverIdlePrefix(Init(r, a), steps);
      var k := Run(Init(r, a), before);
      TicksGrow(k, s);
      t, dead := QuantaBalance(r, a, before);
      AuditedWellFormed(k, t, dead, Accounts(Init(r, a), before));
      StepAudited(k, t, dead, Accounts(Init(r, a), before), s);
      t, dead := TreeAfter(k, t, dead, s), DeadAfter(k, dead, s);
    }
    BalancedByProduct(Run(Init(r, a), steps), t, dead, Accounts(Init(r, a), steps));
  }

  lemma BalancedByProduct(k: State, t: Tree, dead: seq<Ptr>, led: map<Ptr, Entry>)
    requires Audited(k, t, dead, led)
    ensures forall x | x in t.nodes && x != t.root ::
              x in led && led[x].ticks + Remaining(k.mem, x) == (led[x].rearms + 1) * t.nodes[x].slice
  {
    hide WellFormed;
    forall x | x in t.nodes && x != t.root
      ensures x in led && led[x].ticks + Remaining(k.mem, x) == (led[x].rearms + 1) * t.nodes[x].slice
    {
      assert Balanced(k, t, led, x);
      TimesIsProduct(led[x].rearms + 1, t.nodes[x].slice);
    }
  }

  lemma TicksGrow(k: State, s: Step)
    ensures Apply(k, s).ticks == k.ticks + (if s.TickStep? then 1 else 0)
  {
    match s
    case SpawnStep(g, q, Granted(slot)) => InsertChildStill(WithTcb(k, Leaf, g, q, slot), g, slot);
    case SpawnGroupStep(g, q, Granted(slot)) => InsertChildStill(WithTcb(k, Group, g, q, slot), g, slot);
    case ReclaimStep(pinned) => DrainStill(k.(pending := NULL), k.pending, pinned, |k.mem|);
    case _ =>
  }

  lemma {:induction false} DrainStill(k: State, node: Ptr, pinned: set<Ptr>, budget: nat)
    ensures Drain(k, node, pinned, budget).ticks == k.ticks
    decreases budget
  {
    if node in k.mem && budget > 0 {
      var next := k.mem[node].prev;
      if node in pinned {
        DrainStill(k.(mem := SetPrev(k.mem, node, k.pending), pending := node), next, pinned, budget - 1);
      } else {
        DrainStill(k.(mem := Without(k.mem, node), reclaimed := k.reclaimed + 1), next, pinned, budget - 1);
      }
    }
  }

  // ----- the root's quantum, over runs that may idle

  /** A tick takes at most one from the root. */
  lemma TickAtRoot(k: State, t: Tree, dead: seq<Ptr>)
    requires WellFormed(k, t, dead)
    ensures Remaining(OnTick(k).mem, t.root) + 1 >= Remaining(k.mem, t.root)
  {
    hide DrainPath, Sweep, WellFormed;
    Structure(k, t, dead);
    var limit := WalkLimit(k.nodes);
    var m1 := DrainPath(k.mem, k.current, limit);
    var k1 := k.(ticks := k.ticks + 1, mem := m1);
    assert NodeOk(t, t.root) && Holds(k.mem, t, t.root);
    if k.current == NULL {
      IdlePath(k.mem, limit);
    } else {
      RepresentsClimbs(k.mem, t);
      assert NodeOk(t, k.current);
      DrainSpendsPath(k.mem, t, k.current, limit);
    }
    CallbacksRouse(k1.ticks, 0, 0);
    SweepKeepsQuanta(m1, Visited(k1), ExpireOne(k1.ticks));
  }

  lemma DispatchPays(k: State, t: Tree, dead: seq<Ptr>, s: Step)
    requires WellFormed(k, t, dead) && RootPays(k, t) && (s.TickStep? || s.SwitchStep?)
    ensures RootPays(Apply(k, s), t)
  {
    hide OnTick, ScheduleNext, WellFormed;
    Structure(k, t, dead);
    assert NodeOk(t, t.root);
    if s.TickStep? {
      OnTickWellFormed(k, t, dead);
      TickAtRoot(k, t, dead);
      TickCounts(k);
      ScheduleArms(OnTick(k), t, dead);
    } else {
      ScheduleArms(k, t, dead);
    }
  }

  lemma SpawnPays(k: State, t: Tree, dead: seq<Ptr>, s: Step, kind: Kind, g: Ptr, quantum: nat, slot: Ptr)
    requires WellFormed(k, t, dead) && RootPays(k, t) && Allowed(k, s)
    requires s == if kind.Leaf? then SpawnStep(g, quantum, Granted(slot)) else SpawnGroupStep(g, quantum, Granted(slot))
    ensures TreeAfter(k, t, dead, s).root == t.root && RootPays(Apply(k, s), t)
  {
    hide WellFormed, InsertChild, Spawning, NewTree;
    GroupsAreInTree(k, t, dead, g);
    SpawnQuanta(k, t, dead, kind, g, quantum, slot);
    SpawnSetsUp(k, t, dead, kind, g, quantum, slot);
    InsertedNodes(WithTcb(k, kind, g, quantum, slot).mem, t, g, slot, AtLeastOne(quantum), kind.Group?);
    InsertChildStill(WithTcb(k, kind, g, quantum, slot), g, slot);
    RootStands(k, t, dead);
    assert Apply(k, s).mem == InsertChild(WithTcb(k, kind, g, quantum, slot), g, slot).mem;
  }

  lemma RootStands(k: State, t: Tree, dead: seq<Ptr>)
    requires WellFormed(k, t, dead)
    ensures t.root in t.nodes && t.root in k.mem
  {
    assert NodeOk(t, t.root) && Holds(k.mem, t, t.root);
  }

  lemma ExitPays(k: State, t: Tree, dead: seq<Ptr>)
    requires WellFormed(k, t, dead) && RootPays(k, t) && k.current != NULL
    ensures TreeAfter(k, t, dead, ExitStep).root == t.root && RootPays(ExitTask(k), t)
  {
    hide WellFormed, ExitTask, Pruned;
    Structure(k, t, dead);
    ExitWellFormed(k, t, dead);
    ExitLinks(k, t);
    PrunedNodes(t, k.current);
    RootStands(k, t, dead);
    assert ExitTask(k).mem[t.root] == Parting(k.mem, t, k.current, k.pending, t.root);
    assert Holds(k.mem, t, k.current);
    ExitStill(k);
  }

  lemma StepPays(k: State, t: Tree, dead: seq<Ptr>, s: Step)
    requires WellFormed(k, t, dead) && RootPays(k, t) && Allowed(k, s)
    ensures TreeAfter(k, t, dead, s).root == t.root && RootPays(Apply(k, s), t)
  {
    hide WellFormed, OnTick, ScheduleNext, ExitTask, ReclaimFinished, Apply, TreeAfter;
    TreeStands(k, t, dead, s);
    RootStands(k, t, dead);
    match s
    case TickStep => DispatchPays(k, t, dead, s);
    case SwitchStep => DispatchPays(k, t, dead, s);
    case SpawnStep(g, quantum, Granted(slot)) => SpawnPays(k, t, dead, s, Leaf, g, quantum, slot);
    case SpawnGroupStep(g, quantum, Granted(slot)) => SpawnPays(k, t, dead, s, Group, g, quantum, slot);
    case SpawnStep(_, _, _) => FailedSpawnQuiet(k, s);
    case SpawnGroupStep(_, _, _) => FailedSpawnQuiet(k, s);
    case ExitStep =>
      ExitPays(k, t, dead);
      ApplyExit(k);
    case ReclaimStep(pinned) =>
      ReclaimWellFormed(k, t, dead, pinned);
      RootStands(ReclaimFinished(k, pinned), t, Requeued(dead, pinned, []));
      ApplyReclaim(k, pinned);
    case _ => QuietKeepsQuanta(k, s);
  }

  lemma ApplyReclaim(k: State, pinned: set<Ptr>)
    ensures Apply(k, ReclaimStep(pinned)) == ReclaimFinished(k, pinned)
  {
  }

  /** In every reachable state, idle or not, the root has lost no more than the clock shows. */
  lemma {:induction false} RunPays(r: Ptr, a: Ptr, steps: seq<Step>) returns (t: Tree, dead: seq<Ptr>)
    requires r != NULL && a != NULL && r != a && Legal(Init(r, a), steps)
    ensures WellFormed(Run(Init(r, a), steps), t, dead) && RootPays(Run(Init(r, a), steps), t)
  {
    hide WellFormed, Apply, TreeAfter, DeadAfter, Init, RootPays;
    if steps == [] {
      InitWellFormed(r, a);
      t, dead := InitTree(r, a), [];
      InitPays(r, a);
    } else {
      var before, s := steps[..|steps| - 1], steps[|steps| - 1];
      LegalPrefix(Init(r, a), steps);
      t, dead := RunPays(r, a, before);
      var k := Run(Init(r, a), before);
      StepWellFormed(k, t, dead, s);
      StepPays(k, t, dead, s);
      SameRootPays(Apply(k, s), t, TreeAfter(k, t, dead, s));
      t, dead := TreeAfter(k, t, dead, s), DeadAfter(k, dead, s);
    }
  }

  lemma SameRootPays(k: State, t: Tree, t': Tree)
    requires RootPays(k, t) && t'.root == t.root
    ensures RootPays(k, t')
  {
  }

  lemma InitPays(r: Ptr, a: Ptr)
    requires r != a
    ensures RootPays(Init(r, a), InitTree(r, a))
  {
  }

  /** Dispatch soundness over every run, idle or not: a returned task is a linked, living,
      unblocked leaf with an armed quantum at every level; at the root too, for as long as
      the clock has not reached 2^32 - 1. */
  lemma DispatchIsSound(r: Ptr, a: Ptr, steps: seq<Step>) returns (t: Tree, dead: seq<Ptr>)
    requires r != NULL && a != NULL && r != a && Legal(Init(r, a), steps)
    ensures WellFormed(Run(Init(r, a), steps), t, dead)
    ensures var k := Run(Init(r, a), steps);
            var (k', next) := ScheduleNext(k);
            && WellFormed(k', t, dead)
            && (next != NULL ==>
                  && k'.current == next && IsLeaf(t, next) && Linked(k'.mem, next) && Runnable(k'.mem, next)
                  && (forall x | Above(t, x, next) && x != t.root :: Budgeted(k'.mem, t, x))
                  && (k.ticks < U32_MAX ==> Budgeted(k'.mem, t, t.root)))
  {
    hide Run, ScheduleNext, Init, WellFormed, Budgeted;
    t, dead := RunPays(r, a, steps);
    ScheduleIsSound(Run(Init(r, a), steps), t, dead);
  }
}
