/**
  What each kind of wake-up leaves in every block of memory, field by field.
 */
module Waking {
  import opened Tree
  import opened Memory
  import opened Dispatch
  import opened Walk
  import opened Climb
  import opened Invariant
  import opened Runs
  import opened Ledger
  import opened WalkOrder
  import opened Deadlines

  // ----- the effects

  /** A release: every visited task blocked on the resource, with a deadline or without, is
      ready and waits for nothing; its flag is as it was, and so is everybody else. */
  ghost predicate Released(m: Mem, m': Mem, visited: seq<Ptr>, resource: nat) {
    && m'.Keys == m.Keys
    && forall x {:trigger m'[x]} | x in m ::
         m'[x] == if x in visited && m[x].state.Blocked? && m[x].blockedOn == resource
                  then m[x].(state := Ready, blockedOn := 0, deadline := 0)
                  else m[x]
  }

  /** A wake by id: the visited task with that id has its flag up, and if it was blocked it is
      ready and waits for nothing. */
  ghost predicate Called(m: Mem, m': Mem, visited: seq<Ptr>, id: nat) {
    && m'.Keys == m.Keys
    && forall x {:trigger m'[x]} | x in m ::
         m'[x] == if x !in visited || m[x].id != id then m[x]
                  else if m[x].state.Blocked? then m[x].(state := Ready, blockedOn := 0, deadline := 0, woken := true)
                  else m[x].(woken := true)
  }

  /** A hand-off: the first visited task blocked on the resource is ready with its flag up, and
      nobody else is touched. */
  ghost predicate HandedTo(m: Mem, m': Mem, visited: seq<Ptr>, resource: nat, i: nat) {
    && i < |visited| && visited[i] in m && m[visited[i]].state.Blocked? && m[visited[i]].blockedOn == resource
    && (forall j | 0 <= j < i && visited[j] in m ::
          !(m[visited[j]].state.Blocked? && m[visited[j]].blockedOn == resource))
    && m' == m[visited[i] := m[visited[i]].(state := Ready, blockedOn := 0, deadline := 0, woken := true)]
  }

  ghost predicate HandedOff(m: Mem, m': Mem, visited: seq<Ptr>, resource: nat, found: bool) {
    if found then exists i: nat :: HandedTo(m, m', visited, resource, i)
    else m' == m && forall x | x in visited && x in m :: !(m[x].state.Blocked? && m[x].blockedOn == resource)
  }

  /** An expiry sweep at tick now: every visited task blocked until now or earlier is ready and
      waits for nothing, its flag as it was. */
  ghost predicate Expiring(m: Mem, m': Mem, visited: seq<Ptr>, now: nat) {
    && m'.Keys == m.Keys
    && forall x {:trigger m'[x]} | x in m ::
         m'[x] == if x in visited && m[x].state.Blocked? && 0 < m[x].deadline <= now
                  then m[x].(state := Ready, blockedOn := 0, deadline := 0)
                  else m[x]
  }

  /** A tick: one off every quantum from the current leaf to the root, then the sweep at the new
      time. */
  ghost predicate Ticked(m: Mem, m': Mem, t: Tree, cur: Ptr, visited: seq<Ptr>, now: nat)
    requires Valid(t) && (cur == NULL || cur in t.nodes)
  {
    && m'.Keys == m.Keys
    && forall x {:trigger m'[x]} | x in m ::
         var left := if cur != NULL && Above(t, x, cur) && m[x].remaining > 0 then m[x].remaining - 1 else m[x].remaining;
         m'[x] == if x in visited && m[x].state.Blocked? && 0 < m[x].deadline <= now
                  then m[x].(remaining := left, state := Ready, blockedOn := 0, deadline := 0)
                  else m[x].(remaining := left)
  }

  // ----- the sweeps have them

  lemma ReleaseExact(k: State, resource: nat)
    requires k.root in k.mem
    ensures Released(k.mem, WakeBlockedOn(k, resource).mem, Visited(k), resource)
  {
    hide Visited;
    CallbacksIdempotent(0, 0, resource);
    SweepKeys(k.mem, Visited(k), ReleaseOne(resource));
    forall x | x in k.mem {
      SweepExact(k.mem, Visited(k), ReleaseOne(resource), x);
    }
  }

  lemma CallExact(k: State, id: nat)
    requires k.root in k.mem && id != 0
    ensures Called(k.mem, WakeTask(k, id).mem, Visited(k), id)
  {
    hide Visited;
    CallbacksIdempotent(0, id, 0);
    SweepKeys(k.mem, Visited(k), WakeOne(id));
    forall x | x in k.mem {
      SweepExact(k.mem, Visited(k), WakeOne(id), x);
    }
  }

  lemma ExpiryExact(k: State)
    requires k.root in k.mem
    ensures Expiring(k.mem, WakeExpired(k).mem, Visited(k), k.ticks)
  {
    hide Visited;
    CallbacksIdempotent(k.ticks, 0, 0);
    SweepKeys(k.mem, Visited(k), ExpireOne(k.ticks));
    forall x | x in k.mem {
      SweepExact(k.mem, Visited(k), ExpireOne(k.ticks), x);
    }
  }

  lemma {:induction false} SweepKeys(m: Mem, visited: seq<Ptr>, f: Tcb -> Tcb)
    ensures Sweep(m, visited, f).Keys == m.Keys
    decreases |visited|
  {
    if visited != [] {
      var p := visited[0];
      SweepKeys(if p in m then m[p := f(m[p])] else m, visited[1..], f);
    }
  }

  lemma {:induction false} FirstWaiterIsFirst(m: Mem, visited: seq<Ptr>, resource: nat) returns (i: nat)
    requires NULL !in m
    ensures var p := FirstWaiter(m, visited, resource);
            if p in m then
              && i < |visited| && visited[i] == p && m[p].state.Blocked? && m[p].blockedOn == resource
              && forall j | 0 <= j < i && visited[j] in m ::
                   !(m[visited[j]].state.Blocked? && m[visited[j]].blockedOn == resource)
            else forall x | x in visited && x in m :: !(m[x].state.Blocked? && m[x].blockedOn == resource)
    decreases |visited|
  {
    i := 0;
    if visited != [] && !(visited[0] in m && WaitsFor(m[visited[0]], resource)) {
      var rest := visited[1..];
      i := FirstWaiterIsFirst(m, rest, resource);
      i := i + 1;
    }
  }

  lemma HandOffExact(k: State, resource: nat)
    requires k.root in k.mem && NULL !in k.mem
    ensures var (k', found) := WakeFirstBlockedOn(k, resource);
            HandedOff(k.mem, k'.mem, Visited(k), resource, found)
  {
    hide Visited;
    var i := FirstWaiterIsFirst(k.mem, Visited(k), resource);
    var (k', found) := WakeFirstBlockedOn(k, resource);
    if found {
      assert HandedTo(k.mem, k'.mem, Visited(k), resource, i);
    }
  }

  /** The walk depends on the tree alone. */
  lemma SameVisits(k: State, k': State, t: Tree, dead: seq<Ptr>)
    requires WellFormed(k, t, dead) && WellFormed(k', t, dead) && k'.nodes == k.nodes
    ensures Visited(k') == Visited(k)
  {
    hide WalkTree, Within, Below, Represents, InTree;
    Structure(k, t, dead);
    Structure(k', t, dead);
    WalkIsPreorder(k.mem, t, WalkLimit(k.nodes));
    WalkIsPreorder(k'.mem, t, WalkLimit(k.nodes));
  }

  lemma TickIsSweep(k: State)
    ensures OnTick(k) == WakeExpired(SweepState(k))
  {
  }

  lemma DrainExact(k: State, t: Tree, dead: seq<Ptr>)
    requires WellFormed(k, t, dead)
    ensures Valid(t) && (k.current == NULL || k.current in t.nodes)
    ensures var mid := SweepState(k);
            && mid == k.(ticks := k.ticks + 1, mem := mid.mem) && mid.mem.Keys == k.mem.Keys
            && forall x {:trigger mid.mem[x]} | x in k.mem ::
                 mid.mem[x] == k.mem[x].(remaining :=
                   if k.current != NULL && Above(t, x, k.current) && k.mem[x].remaining > 0
                   then k.mem[x].remaining - 1 else k.mem[x].remaining)
  {
    if k.current != NULL {
      hide DrainPath;
      RepresentsClimbs(k.mem, t);
      assert NodeOk(t, k.current);
      DrainSpendsPath(k.mem, t, k.current, WalkLimit(k.nodes));
    }
  }

  lemma TickExact(k: State, t: Tree, dead: seq<Ptr>)
    requires WellFormed(k, t, dead)
    ensures Valid(t) && (k.current == NULL || k.current in t.nodes)
    ensures Ticked(k.mem, OnTick(k).mem, t, k.current, Visited(k), k.ticks + 1)
  {
    hide Visited, WellFormed, SweepState, WakeExpired;
    var mid := SweepState(k);
    MidwayWellFormed(k, t, dead);
    DrainExact(k, t, dead);
    SameVisits(k, mid, t, dead);
    RootInMemory(mid, t, dead);
    ExpiryExact(mid);
    assert OnTick(k) == WakeExpired(mid) by { TickIsSweep(k); }
  }

  // ----- with coverage

  /** After a release whose walk covers the tree nobody is left blocked on the resource, and
      nobody else is touched. */
  lemma ReleaseLeavesNobody(k: State, t: Tree, dead: seq<Ptr>, resource: nat, x: Ptr)
    requires WellFormed(k, t, dead) && Covered(t, WalkLimit(k.nodes)) && x in k.mem
    ensures var k' := WakeBlockedOn(k, resource);
            && x in k'.mem
            && !(k'.mem[x].state.Blocked? && k'.mem[x].blockedOn == resource)
            && k'.mem[x] == if k.mem[x].state.Blocked? && k.mem[x].blockedOn == resource
                            then k.mem[x].(state := Ready, blockedOn := 0, deadline := 0) else k.mem[x]
  {
    hide WellFormed, Visited, WakeBlockedOn;
    RootInMemory(k, t, dead);
    ReleaseExact(k, resource);
    BlockedAreLinked(k, t, dead);
    VisitedCovers(k, t, dead);
  }
}
