/**
  The critical sections of event.rs and exec.rs as they run: cells updated in place, on top
  of the kernel object.
 */
module Events {
  import opened Tree
  import opened Memory
  import opened Blocking
  import opened Invariant
  import opened Scheduler
  import S = Signals
  import E = Executor
  import W = Walk

  method CurrentId(kernel: Kernel) returns (id: nat)
    ensures id == S.CurrentId(kernel.View())
  {
    id := if kernel.current in kernel.mem then kernel.mem[kernel.current].id else 0;
  }

  class Signal {
    var raised: bool
    var waiter: nat

    ghost function View(): S.Signal
      reads this
    {
      S.Signal(raised, waiter)
    }

    constructor ()
      ensures View() == S.Signal(false, 0)
    {
      raised, waiter := false, 0;
    }

    /** The section of set; what it claims is woken afterwards, in a section of its own. */
    method SetSection() returns (id: nat)
      modifies this
      ensures (View(), id) == S.SetSection(old(View()))
      ensures raised && waiter == 0 && id == old(waiter)
    {
      raised := true;
      id := waiter;
      waiter := 0;
    }

    /** set, when nothing comes between its two sections. */
    method Set(kernel: Kernel)
      requires kernel.Intact()
      modifies this, kernel`mem
      ensures View() == S.Signal(true, 0)
      ensures kernel.View() == W.WakeTask(old(kernel.View()), old(waiter)) && kernel.Intact()
    {
      var id := SetSection();
      if id != 0 {
        kernel.WakeTask(id);
      }
    }

    method TryTake() returns (was: bool)
      modifies this
      ensures (View(), was) == S.TryTake(old(View()))
      ensures !raised && was == old(raised) && waiter == old(waiter)
    {
      was := raised;
      raised := false;
    }

    /** One turn of wait's loop: the condition is checked, or the waiter registered, in the
        section that blocks. */
    method WaitSection(kernel: Kernel, deadline: nat) returns (outcome: BlockOutcome)
      requires kernel.Intact()
      modifies this, kernel`mem, kernel`blocksWithoutCurrent
      ensures (kernel.View(), View(), outcome) == S.WaitSection(old(kernel.View()), old(View()), deadline)
      ensures kernel.Intact()
      ensures S.WaitEffect(old(kernel.View()), old(View()), deadline, kernel.View(), View(), outcome)
    {
      S.WaitExact(kernel.View(), View(), deadline);
      var me := CurrentId(kernel);
      var ready := raised;
      if raised {
        raised := false;
      } else {
        waiter := me;
      }
      outcome := kernel.BlockUnless(me, deadline, ready);
    }
  }

  /** One turn of park's loop. */
  method ParkSection(kernel: Kernel, deadline: nat) returns (outcome: BlockOutcome)
    requires kernel.Intact()
    modifies kernel`mem, kernel`blocksWithoutCurrent
    ensures (kernel.View(), outcome) == E.ParkSection(old(kernel.View()), deadline)
    ensures kernel.Intact()
    ensures E.ParkEffect(old(kernel.View()), deadline, kernel.View(), outcome)
  {
    E.ParkExact(kernel.View(), deadline);
    var me := CurrentId(kernel);
    var woken := kernel.TakeWakeFlag();
    outcome := kernel.BlockUnless(me, deadline, woken);
  }

  /** Sleep::poll: due, or armed in the task. */
  method PollSleep(kernel: Kernel, deadline: nat) returns (due: bool)
    requires kernel.Intact()
    modifies kernel`mem
    ensures due <==> old(kernel.ticks) >= deadline
    ensures kernel.View() == if due then old(kernel.View()) else SetTimerDeadline(old(kernel.View()), deadline)
    ensures kernel.Intact()
  {
    due := kernel.ticks >= deadline;
    if !due {
      kernel.SetTimerDeadline(deadline);
    }
  }

  /** One turn of block_on's loop over joined sleeps, up to the park, when nothing comes in
      between: the timer left behind is the least of the pending deadlines, zero if none. */
  method PollAll(kernel: Kernel, sleeps: seq<nat>, done: array<bool>) returns (ready: bool, timer: nat)
    requires kernel.Intact() && kernel.current in kernel.mem && done.Length == |sleeps|
    modifies kernel`mem, done
    ensures kernel.Intact() && kernel.current in kernel.mem
    ensures forall i | 0 <= i < |sleeps| :: done[i] <==> old(done[i]) || sleeps[i] <= kernel.ticks
    ensures ready <==> forall i | 0 <= i < |sleeps| :: done[i]
    ensures timer == kernel.mem[kernel.current].deadline == E.Least(sleeps, done[..], |sleeps|)
    ensures !kernel.mem[kernel.current].woken
  {
    hide WellFormed, Kernel.OnlyCurrent;
    var _ := kernel.TakeWakeFlag();
    kernel.ClearTimerDeadline();
    var i := 0;
    ready := true;
    while i < |sleeps|
      invariant i <= |sleeps| && kernel.Intact() && kernel.current in kernel.mem
      invariant !kernel.mem[kernel.current].woken
      invariant forall j | 0 <= j < i :: done[j] <==> old(done[j]) || sleeps[j] <= kernel.ticks
      invariant forall j | i <= j < |sleeps| :: done[j] == old(done[j])
      invariant ready <==> forall j | 0 <= j < i :: done[j]
      invariant kernel.mem[kernel.current].deadline == E.Least(sleeps, done[..], i)
    {
      ghost var before := done[..];
      if !done[i] {
        var due := PollSleep(kernel, sleeps[i]);
        done[i] := due;
        ready := ready && due;
        assert done[..] == before[i := due];
        if due {
          E.LeastIgnoresLater(sleeps, before, i, i);
        } else {
          assert done[..] == before;
        }
      }
      i := i + 1;
    }
    timer := kernel.mem[kernel.current].deadline;
  }
}
