/**
  The bounded tree walk behind every wake-up sweep, and the sweeps themselves.
 */
module Walk {
  import opened Tree
  import opened Memory
  import opened Dispatch

  // ----- walk_tree: the nodes it hands to its callback, in order

  /** At the top of the outer loop, about to visit p with budget steps left. */
  function Visit(m: Mem, owner: Ptr, p: Ptr, budget: nat): seq<Ptr>
    decreases budget, 1
  {
    if budget == 0 then []
    else [p] + (if IsGroup(m, p) && Linked(m, Head(m, p)) then Visit(m, owner, Head(m, p), budget - 1)
                else Aside(m, owner, p, budget - 1))
  }

  /** At the top of the inner loop, done with everything beneath p. */
  function Aside(m: Mem, owner: Ptr, p: Ptr, budget: nat): seq<Ptr>
    decreases budget, 0
  {
    if budget == 0 || Parent(m, p) !in m then []
    else
      var next := Next(m, p);
      if Linked(m, next) && next != Head(m, Parent(m, p)) then Visit(m, owner, next, budget - 1)
      else if Parent(m, p) == owner then []
      else Aside(m, owner, Parent(m, p), budget - 1)
  }

  function WalkTree(m: Mem, first: Ptr, limit: nat): seq<Ptr> {
    if !Linked(m, first) then [] else Visit(m, Parent(m, first), first, limit)
  }

  // ----- what the callbacks do to a visited block

  function Awake(c: Tcb): Tcb { c.(state := Ready, blockedOn := 0, deadline := 0) }

  predicate Expired(c: Tcb, now: nat) { c.state.Blocked? && c.deadline != 0 && now >= c.deadline }

  predicate WaitsFor(c: Tcb, resource: nat) { c.state.Blocked? && c.blockedOn == resource }

  /** Apply a callback to each visited node in turn. */
  function Sweep(m: Mem, visited: seq<Ptr>, f: Tcb -> Tcb): Mem {
    if visited == [] then m
    else
      var p := visited[0];
      Sweep(if p in m then m[p := f(m[p])] else m, visited[1..], f)
  }

  function ExpireOne(now: nat): Tcb -> Tcb { (c: Tcb) => if Expired(c, now) then Awake(c) else c }

  function WakeOne(id: nat): Tcb -> Tcb {
    (c: Tcb) =>
      if c.id != id then c
      else if c.state.Blocked? then Awake(c).(woken := true)
      else c.(woken := true)
  }

  function ReleaseOne(resource: nat): Tcb -> Tcb {
    (c: Tcb) => if WaitsFor(c, resource) then Awake(c) else c
  }

  function Visited(k: State): seq<Ptr> { WalkTree(k.mem, Head(k.mem, k.root), WalkLimit(k.nodes)) }

  function WakeExpired(k: State): State {
    if k.root !in k.mem then k else k.(mem := Sweep(k.mem, Visited(k), ExpireOne(k.ticks)))
  }

  function WakeTask(k: State, id: nat): State {
    if id == 0 || k.root !in k.mem then k else k.(mem := Sweep(k.mem, Visited(k), WakeOne(id)))
  }

  function WakeBlockedOn(k: State, resource: nat): State {
    if k.root !in k.mem then k else k.(mem := Sweep(k.mem, Visited(k), ReleaseOne(resource)))
  }

  /** The first visited waiter, or null. */
  function FirstWaiter(m: Mem, visited: seq<Ptr>, resource: nat): Ptr {
    if visited == [] then NULL
    else if visited[0] in m && WaitsFor(m[visited[0]], resource) then visited[0]
    else FirstWaiter(m, visited[1..], resource)
  }

  function WakeFirstBlockedOn(k: State, resource: nat): (State, bool) {
    if k.root !in k.mem then (k, false)
    else
      var p := FirstWaiter(k.mem, Visited(k), resource);
      if p !in k.mem then (k, false)
      else (k.(mem := k.mem[p := Awake(k.mem[p]).(woken := true)]), true)
  }

  // ----- the tick

  function OnTick(k: State): State {
    WakeExpired(k.(ticks := k.ticks + 1, mem := DrainPath(k.mem, k.current, WalkLimit(k.nodes))))
  }

  /** A hardware tick: spend quanta, expire deadlines, switch. */
  function Tick(k: State): (State, Ptr) { ScheduleNext(OnTick(k)) }
}
