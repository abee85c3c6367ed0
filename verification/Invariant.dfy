/**
  The kernel invariant: the tree is a tree, every block is either in it or waiting to be
  freed, and the counters count.
 */
module Invariant {
  import opened Lists
  import opened Tree
  import opened Memory
  import opened Dispatch
  import opened Walk
  import opened Climb
  import opened Rings
  import opened Soundness
  import opened Blocking

  /** The deferred-free list: dead threads from head through the prev links. */
  ghost predicate Chain(m: Mem, head: Ptr, dead: seq<Ptr>)
    decreases |dead|
  {
    if dead == [] then head == NULL
    else head == dead[0] && head in m && Chain(m, m[head].prev, dead[1..])
  }

  ghost predicate Buried(m: Mem, t: Tree, x: Ptr) {
    x in m && x !in t.nodes && m[x].state.Dead? && m[x].next == NULL && m[x].kind.Leaf?
  }

  ghost predicate Graveyard(m: Mem, t: Tree, head: Ptr, dead: seq<Ptr>) {
    && Chain(m, head, dead)
    && Distinct(dead)
    && (forall x {:trigger Buried(m, t, x)} | x in dead :: Buried(m, t, x))
  }

  ghost function Leaves(t: Tree): set<Ptr> {
    set x | x in t.nodes && x !in t.kids
  }

  /** Task ids are handed out once. */
  ghost predicate Identified(m: Mem, nextId: nat) {
    && (forall x {:trigger m[x].id} | x in m :: m[x].id < nextId)
    && (forall x, y {:trigger m[x].id, m[y].id} | x in m && y in m && m[x].id == m[y].id :: x == y)
  }

  ghost predicate HeadOfLevelOne(t: Tree, head: Ptr)
    requires Valid(t)
  {
    if t.kids[t.root] == [] then head == NULL else IsKid(t, t.root, head)
  }

  ghost predicate WellFormed(k: State, t: Tree, dead: seq<Ptr>) {
    && Represents(k.mem, t)
    && k.root == t.root
    && t.depth <= k.nodes
    && (k.current == NULL || IsLeaf(t, k.current))
    && HeadOfLevelOne(t, k.ringHead)
    && Graveyard(k.mem, t, k.pending, dead)
    && (forall x {:trigger x in k.mem} | x in k.mem :: x in t.nodes || x in dead)
    && Identified(k.mem, k.nextId)
    && k.active == |Leaves(t)|
    && k.total == k.active + |dead| + k.reclaimed
  }

  lemma TreeIsValid(k: State, t: Tree, dead: seq<Ptr>)
    requires WellFormed(k, t, dead)
    ensures Valid(t)
  {
  }

  // ----- steps that leave every link alone

  ghost predicate KeptNode(c: Tcb, c': Tcb, t: Tree, x: Ptr) {
    && c' == c.(remaining := c'.remaining, cursor := c'.cursor, state := c'.state,
                woken := c'.woken, blockedOn := c'.blockedOn, deadline := c'.deadline)
    && (c.remaining <= c.slice ==> c'.remaining <= Full(c))
    && (c'.cursor == c.cursor || (x in t.kids && IsKid(t, x, c'.cursor)))
    && (c'.state == c.state || (IsLeaf(t, x) && !c'.state.Dead?))
  }

  ghost predicate Kept(m: Mem, m': Mem, t: Tree) {
    && m'.Keys == m.Keys
    && forall x {:trigger m'[x]} | x in m :: KeptNode(m[x], m'[x], t, x)
  }

  lemma KeptHolds(m: Mem, m': Mem, t: Tree, x: Ptr)
    requires Represents(m, t) && x in t.nodes
    requires x in m ==> x in m' && KeptNode(m[x], m'[x], t, x)
    ensures Holds(m', t, x)
  {
    assert NodeOk(t, x) && Holds(m, t, x);
    if m'[x].cursor != m[x].cursor {
      assert NodeOk(t, m'[x].cursor);
    }
  }

  lemma KeptRepresents(m: Mem, m': Mem, t: Tree)
    requires Represents(m, t) && Kept(m, m', t)
    ensures Represents(m', t)
  {
    forall x | x in t.nodes ensures Holds(m', t, x) {
      if x in m {
        assert KeptNode(m[x], m'[x], t, x);
      }
      KeptHolds(m, m', t, x);
    }
  }

  lemma {:induction false} ChainKept(m: Mem, m': Mem, head: Ptr, dead: seq<Ptr>)
    requires Chain(m, head, dead)
    requires forall x | x in dead :: x in m && x in m' && m'[x].prev == m[x].prev
    ensures Chain(m', head, dead)
    decreases |dead|
  {
    if dead != [] {
      assert dead[0] in dead;
      ChainKept(m, m', m[head].prev, dead[1..]);
    }
  }

  lemma KeptGraveyard(m: Mem, m': Mem, t: Tree, head: Ptr, dead: seq<Ptr>)
    requires Graveyard(m, t, head, dead) && Kept(m, m', t)
    ensures Graveyard(m', t, head, dead)
  {
    forall x | x in dead ensures Buried(m', t, x) && x in m && m'[x].prev == m[x].prev {
      assert Buried(m, t, x) && KeptNode(m[x], m'[x], t, x);
    }
    ChainKept(m, m', head, dead);
  }

  lemma KeptIdentified(m: Mem, m': Mem, t: Tree, nextId: nat)
    requires Identified(m, nextId) && Kept(m, m', t)
    ensures Identified(m', nextId)
  {
    forall x | x in m' ensures m'[x].id == m[x].id {
      assert KeptNode(m[x], m'[x], t, x);
    }
  }

  /** Everything but blocks, clock and the current task is the same. */
  ghost predicate SameBooks(k: State, k': State) {
    k' == k.(mem := k'.mem, current := k'.current, ticks := k'.ticks, switches := k'.switches,
             blocksWithoutCurrent := k'.blocksWithoutCurrent)
  }

  lemma KeptWellFormed(k: State, k': State, t: Tree, dead: seq<Ptr>)
    requires WellFormed(k, t, dead) && SameBooks(k, k') && Kept(k.mem, k'.mem, t)
    requires k'.current == NULL || IsLeaf(t, k'.current)
    ensures WellFormed(k', t, dead)
  {
    hide Kept, Graveyard, Identified, Represents;
    KeptRepresents(k.mem, k'.mem, t);
    KeptGraveyard(k.mem, k'.mem, t, k.pending, dead);
    KeptIdentified(k.mem, k'.mem, t, k.nextId);
    KeptKeys(k.mem, k'.mem, t);
    RepresentsValid(k.mem, t);
  }

  lemma KeptKeys(m: Mem, m': Mem, t: Tree)
    requires Kept(m, m', t)
    ensures m'.Keys == m.Keys
  {
  }

  lemma RepresentsValid(m: Mem, t: Tree)
    requires Represents(m, t)
    ensures Valid(t)
  {
  }

  // ----- each kind of step

  lemma SteppedKept(m: Mem, m': Mem, t: Tree)
    requires Stepped(m, m', t)
    ensures Kept(m, m', t)
  {
    forall x | x in m ensures KeptNode(m[x], m'[x], t, x) {
      assert SteppedNode(m[x], m'[x], t, x);
    }
  }

  lemma DrainKept(m: Mem, t: Tree, n: Ptr, budget: nat)
    requires Represents(m, t) && t.depth <= budget && (n == NULL || n in t.nodes)
    ensures Kept(m, DrainPath(m, n, budget), t)
  {
    if n != NULL {
      RepresentsClimbs(m, t);
      assert NodeOk(t, n);
      DrainSpendsPath(m, t, n, budget);
      forall x | x in m ensures KeptNode(m[x], DrainPath(m, n, budget)[x], t, x) {
      }
    }
  }

  /** A callback that at most wakes a blocked block. */
  ghost predicate Rouses(f: Tcb -> Tcb) {
    forall c {:trigger f(c)} :: RousedNode(c, f(c))
  }

  ghost predicate RousedNode(c: Tcb, c': Tcb) {
    && c' == c.(state := c'.state, woken := c'.woken, blockedOn := c'.blockedOn, deadline := c'.deadline)
    && (c'.state == c.state || (c.state.Blocked? && c'.state.Ready?))
  }

  ghost predicate Roused(m: Mem, m': Mem) {
    && m'.Keys == m.Keys
    && forall x {:trigger m'[x]} | x in m :: RousedNode(m[x], m'[x])
  }

  lemma {:induction false} SweepRouses(m: Mem, visited: seq<Ptr>, f: Tcb -> Tcb)
    requires Rouses(f)
    ensures Roused(m, Sweep(m, visited, f))
    decreases |visited|
  {
    if visited != [] {
      var p := visited[0];
      var m1 := if p in m then m[p := f(m[p])] else m;
      assert Roused(m, m1);
      SweepRouses(m1, visited[1..], f);
      var m' := Sweep(m1, visited[1..], f);
      forall x | x in m ensures RousedNode(m[x], m'[x]) {
        assert RousedNode(m[x], m1[x]) && RousedNode(m1[x], m'[x]);
      }
    }
  }

  lemma CallbacksRouse(now: nat, id: nat, resource: nat)
    ensures Rouses(ExpireOne(now)) && Rouses(WakeOne(id)) && Rouses(ReleaseOne(resource))
  {
  }

  lemma RousedKept(k: State, m': Mem, t: Tree, dead: seq<Ptr>)
    requires WellFormed(k, t, dead) && Roused(k.mem, m')
    ensures Kept(k.mem, m', t)
  {
    forall x | x in k.mem ensures KeptNode(k.mem[x], m'[x], t, x) {
      assert RousedNode(k.mem[x], m'[x]);
      if x in t.nodes {
        assert Holds(k.mem, t, x);
      } else {
        assert Buried(k.mem, t, x);
      }
    }
  }

  lemma SweepWellFormed(k: State, t: Tree, dead: seq<Ptr>, visited: seq<Ptr>, f: Tcb -> Tcb)
    requires WellFormed(k, t, dead) && Rouses(f)
    ensures WellFormed(k.(mem := Sweep(k.mem, visited, f)), t, dead)
  {
    SweepRouses(k.mem, visited, f);
    RousedKept(k, Sweep(k.mem, visited, f), t, dead);
    KeptWellFormed(k, k.(mem := Sweep(k.mem, visited, f)), t, dead);
  }

  lemma OnTickWellFormed(k: State, t: Tree, dead: seq<Ptr>)
    requires WellFormed(k, t, dead)
    ensures WellFormed(OnTick(k), t, dead)
  {
    var m := DrainPath(k.mem, k.current, WalkLimit(k.nodes));
    DrainKept(k.mem, t, k.current, WalkLimit(k.nodes));
    var k1 := k.(ticks := k.ticks + 1, mem := m);
    KeptWellFormed(k, k1, t, dead);
    CallbacksRouse(k1.ticks, 0, 0);
    SweepWellFormed(k1, t, dead, Visited(k1), ExpireOne(k1.ticks));
  }

  /** x holds an armed quantum, and no more than its slice. */
  ghost predicate Budgeted(m: Mem, t: Tree, x: Ptr) {
    x in t.nodes && 1 <= Remaining(m, x) <= t.nodes[x].slice
  }

  /** What one call of schedule_next guarantees, whatever is blocked: the structure stands,
      and a returned task is a linked, living, unblocked leaf that owns the CPU, with an armed
      quantum at every level; only the root's own, which is never armed, may have run out. */
  lemma ScheduleIsSound(k: State, t: Tree, dead: seq<Ptr>)
    requires WellFormed(k, t, dead)
    ensures var (k', next) := ScheduleNext(k);
            && WellFormed(k', t, dead)
            && (next == NULL ==> k'.current == k.current)
            && (next != NULL ==>
                  && k'.current == next && IsLeaf(t, next)
                  && Linked(k'.mem, next) && Runnable(k'.mem, next)
                  && (forall x | Above(t, x, next) && x != t.root :: Budgeted(k'.mem, t, x))
                  && (Remaining(k.mem, t.root) > 0 ==> Budgeted(k'.mem, t, t.root)))
  {
    hide PickNextLeaf, HandOver, Stepped, Kept;
    var limit := WalkLimit(k.nodes);
    if k.current != NULL {
      assert NodeOk(t, k.current);
      NextInMemory(k.mem, t, k.current);
    }
    PickOffers(k.mem, t, k.current, limit);
    var (m, next) := PickNextLeaf(k.mem, t.root, k.current, limit);
    SteppedKept(k.mem, m, t);
    var k1 := k.(mem := m);
    KeptWellFormed(k, k1, t, dead);
    if next != NULL {
      assert NodeOk(t, t.root);
      NextInMemory(m, t, next);
      assert k.current != NULL ==> k.current in m by {
        if k.current != NULL { NextInMemory(m, t, k.current); }
      }
      HandOverKept(m, t, k.current, next);
      if next != k.current {
        KeptWellFormed(k1, k1.(mem := HandOver(m, k.current, next), current := next, switches := k.switches + 1), t, dead);
      }
      SteppedRuns(k.mem, m, t, t.root);
      SchedulePaths(ScheduleNext(k).0.mem, m, t, next);
    } else {
      assert !Linked(m, NULL);
    }
  }

  lemma HandOverKept(m: Mem, t: Tree, cur: Ptr, next: Ptr)
    requires (cur == NULL || IsLeaf(t, cur)) && IsLeaf(t, next) && next in m && NULL !in m
    ensures Kept(m, HandOver(m, cur, next), t)
    ensures forall x :: Remaining(HandOver(m, cur, next), x) == Remaining(m, x)
    ensures Runnable(HandOver(m, cur, next), next)
    ensures HandOver(m, cur, next)[next].next == m[next].next
  {
  }

  lemma SchedulePaths(m': Mem, m: Mem, t: Tree, leaf: Ptr)
    requires Represents(m', t) && IsLeaf(t, leaf) && FundedBelow(m, t, leaf)
    requires forall x :: Remaining(m', x) == Remaining(m, x)
    ensures forall x | Above(t, x, leaf) && x != t.root :: Budgeted(m', t, x)
    ensures Remaining(m, t.root) > 0 ==> Budgeted(m', t, t.root)
  {
    forall x | Above(t, x, leaf) && x != t.root ensures Budgeted(m', t, x) {
      AboveLevel(t, x, leaf);
      assert Holds(m', t, x);
    }
    assert NodeOk(t, t.root) && Holds(m', t, t.root);
  }

  lemma BlockWellFormed(k: State, t: Tree, dead: seq<Ptr>, resource: nat, deadline: nat)
    requires WellFormed(k, t, dead)
    ensures WellFormed(MarkBlocked(k, resource, deadline).0, t, dead)
  {
    var k' := MarkBlocked(k, resource, deadline).0;
    forall x | x in k.mem ensures KeptNode(k.mem[x], k'.mem[x], t, x) {
    }
    KeptWellFormed(k, k', t, dead);
  }

  lemma WakeFlagWellFormed(k: State, t: Tree, dead: seq<Ptr>)
    requires WellFormed(k, t, dead)
    ensures WellFormed(TakeWakeFlag(k).0, t, dead)
  {
    assert Kept(k.mem, TakeWakeFlag(k).0.mem, t);
    KeptWellFormed(k, TakeWakeFlag(k).0, t, dead);
  }

  lemma ClearTimerWellFormed(k: State, t: Tree, dead: seq<Ptr>)
    requires WellFormed(k, t, dead)
    ensures WellFormed(ClearTimerDeadline(k), t, dead)
  {
    assert Kept(k.mem, ClearTimerDeadline(k).mem, t);
    KeptWellFormed(k, ClearTimerDeadline(k), t, dead);
  }

  lemma SetTimerWellFormed(k: State, t: Tree, dead: seq<Ptr>, deadline: nat)
    requires WellFormed(k, t, dead)
    ensures WellFormed(SetTimerDeadline(k, deadline), t, dead)
  {
    assert Kept(k.mem, SetTimerDeadline(k, deadline).mem, t);
    KeptWellFormed(k, SetTimerDeadline(k, deadline), t, dead);
  }

  lemma WakesWellFormed(k: State, t: Tree, dead: seq<Ptr>, id: nat, resource: nat)
    requires WellFormed(k, t, dead)
    ensures WellFormed(WakeTask(k, id), t, dead)
    ensures WellFormed(WakeBlockedOn(k, resource), t, dead)
    ensures WellFormed(WakeFirstBlockedOn(k, resource).0, t, dead)
  {
    hide WellFormed, Visited, WakeFirstBlockedOn, Rouses;
    CallbacksRouse(0, id, resource);
    SweepWellFormed(k, t, dead, Visited(k), WakeOne(id));
    SweepWellFormed(k, t, dead, Visited(k), ReleaseOne(resource));
    HandOffWellFormed(k, t, dead, resource);
  }

  lemma HandOffWellFormed(k: State, t: Tree, dead: seq<Ptr>, resource: nat)
    requires WellFormed(k, t, dead)
    ensures WellFormed(WakeFirstBlockedOn(k, resource).0, t, dead)
  {
    hide WellFormed, Visited;
    CurrentIsLeaf(k, t, dead);
    FirstWaiterWaits(k.mem, Visited(k), resource);
    var k' := WakeFirstBlockedOn(k, resource).0;
    assert Roused(k.mem, k'.mem);
    RousedKept(k, k'.mem, t, dead);
    KeptWellFormed(k, k', t, dead);
  }

  lemma CurrentIsLeaf(k: State, t: Tree, dead: seq<Ptr>)
    requires WellFormed(k, t, dead)
    ensures NULL !in k.mem && (k.current == NULL || IsLeaf(t, k.current))
  {
  }

  lemma {:induction false} FirstWaiterWaits(m: Mem, visited: seq<Ptr>, resource: nat)
    ensures var p := FirstWaiter(m, visited, resource);
            p == NULL || (p in visited && p in m && WaitsFor(m[p], resource))
    decreases |visited|
  {
    if visited != [] {
      FirstWaiterWaits(m, visited[1..], resource);
    }
  }
}
