/**
  walk_tree hands each node to a closure that updates the block in place and may remember
  whether it already found what it was looking for.  Since no closure touches a link, the
  walk over changing memory visits what a walk over the first memory would have.
 */
module Callbacks {
  import opened Tree
  import opened Memory
  import opened Walk

  type Callback = (Tcb, bool) -> (Tcb, bool)

  /** The closure run over the visited nodes in turn. */
  function Through(m: Mem, visited: seq<Ptr>, f: Callback, found: bool): (Mem, bool) {
    if visited == [] then (m, found)
    else
      var p := visited[0];
      if p !in m then Through(m, visited[1..], f, found)
      else
        var (c, found') := f(m[p], found);
        Through(m[p := c], visited[1..], f, found')
  }

  lemma ThroughStep(m: Mem, p: Ptr, rest: seq<Ptr>, f: Callback, found: bool)
    requires p in m
    ensures Through(m, [p] + rest, f, found) == var (c, found') := f(m[p], found); Through(m[p := c], rest, f, found')
  {
    assert ([p] + rest)[1..] == rest;
  }

  predicate SameShape(c: Tcb, c': Tcb) {
    c'.kind == c.kind && c'.next == c.next && c'.parent == c.parent && c'.head == c.head
  }

  ghost predicate LeavesLinks(f: Callback) {
    forall c, found {:trigger f(c, found)} :: SameShape(c, f(c, found).0)
  }

  /** The closures that remember nothing. */
  function Plain(g: Tcb -> Tcb): Callback { (c: Tcb, found: bool) => (g(c), found) }

  lemma {:induction false} PlainIsSweep(m: Mem, visited: seq<Ptr>, g: Tcb -> Tcb, found: bool)
    ensures Through(m, visited, Plain(g), found) == (Sweep(m, visited, g), found)
    decreases |visited|
  {
    if visited != [] {
      var p := visited[0];
      PlainIsSweep(if p in m then m[p := g(m[p])] else m, visited[1..], g, found);
    }
  }

  /** The closure of the single hand-off: the first waiter it meets, and nobody else. */
  function HandOne(resource: nat): Callback {
    (c: Tcb, found: bool) =>
      if !found && WaitsFor(c, resource) then (Awake(c).(woken := true), true) else (c, found)
  }

  lemma {:induction false} HandedOut(m: Mem, visited: seq<Ptr>, resource: nat)
    ensures Through(m, visited, HandOne(resource), true) == (m, true)
    decreases |visited|
  {
    if visited != [] {
      assert visited[0] in m ==> m[visited[0] := m[visited[0]]] == m;
      HandedOut(m, visited[1..], resource);
    }
  }

  lemma {:induction false} HandOneIsFirst(m: Mem, visited: seq<Ptr>, resource: nat)
    requires NULL !in m
    ensures var p := FirstWaiter(m, visited, resource);
            Through(m, visited, HandOne(resource), false)
            == if p in m then (m[p := Awake(m[p]).(woken := true)], true) else (m, false)
    decreases |visited|
  {
    if visited != [] {
      var p := visited[0];
      if p in m && WaitsFor(m[p], resource) {
        HandedOut(m[p := Awake(m[p]).(woken := true)], visited[1..], resource);
      } else {
        assert p in m ==> m[p := m[p]] == m;
        HandOneIsFirst(m, visited[1..], resource);
      }
    }
  }
}
