/**
  What a signal's flag and waiter mean: nothing but the history of its sections.
 */
module Histories {
  import opened Signals

  datatype Section = Sets | Takes | Waits(me: nat)

  function Step(sig: Signal, s: Section): Signal {
    match s
    case Sets => SetSection(sig).0
    case Takes => TryTake(sig).0
    case Waits(me) => ConsumeOrRegister(sig, me)
  }

  function Replay(h: seq<Section>): Signal {
    if h == [] then Signal(false, 0) else Step(Replay(h[..|h| - 1]), h[|h| - 1])
  }

  /** The wait at i was not given a set, and since then there was neither a set nor another
      wait. */
  ghost predicate Registered(h: seq<Section>, i: nat, id: nat) {
    && i < |h| && h[i] == Waits(id) && (i == 0 || !h[i - 1].Sets?)
    && forall j | i < j < |h| :: h[j].Takes?
  }

  /** The flag is up if and only if the last section was a set: whatever comes next consumes
      it, and sets in a row are consumed together. */
  lemma FlagIsLastSet(h: seq<Section>)
    ensures Replay(h).raised <==> h != [] && h[|h| - 1].Sets?
  {
    if h != [] {
      var last := |h| - 1;
      assert Replay(h) == Step(Replay(h[..last]), h[last]);
    }
  }

  /** A task is the waiter if and only if it waited without being given a set, and since then
      nobody has set the signal or waited for it. */
  lemma {:induction false} WaiterIsLastToRegister(h: seq<Section>, id: nat)
    requires id != 0
    ensures Replay(h).waiter == id <==> exists i: nat :: Registered(h, i, id)
  {
    if h != [] {
      var last := |h| - 1;
      var rest := h[..last];
      WaiterIsLastToRegister(rest, id);
      FlagIsLastSet(rest);
      if i: nat :| Registered(rest, i, id) {
        if !h[last].Waits? && !h[last].Sets? {
          assert Registered(h, i, id);
        }
      }
      if i: nat :| Registered(h, i, id) {
        if i < last {
          assert Registered(rest, i, id);
        }
      }
      if h[last] == Waits(id) && !Replay(rest).raised {
        assert Registered(h, last, id);
      }
    }
  }
}
