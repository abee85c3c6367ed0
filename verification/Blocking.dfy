/**
  Blocking the current task, and what it leaves for the wakers to find.
 */
module Blocking {
  import opened Tree
  import opened Memory
  import opened Time

  datatype BlockOutcome = ReadyNow | BlockedNow | AlreadyPast | NoCurrentTask

  /** mark_blocked_locked: deadline zero waits for ever. */
  function MarkBlocked(k: State, resource: nat, deadline: nat): (State, BlockOutcome) {
    if k.current !in k.mem then (k.(blocksWithoutCurrent := k.blocksWithoutCurrent + 1), NoCurrentTask)
    else if deadline != 0 && k.ticks >= deadline then (k, AlreadyPast)
    else (k.(mem := k.mem[k.current := k.mem[k.current].(
                 blockedOn := resource, deadline := deadline, state := Blocked)]), BlockedNow)
  }

  /** What blocking means for the kernel, field by field: without a current task the attempt is
      counted and refused; past the deadline nothing happens; otherwise the current task is
      blocked on the resource until exactly that deadline (zero: for ever). */
  ghost predicate BlockEffect(k: State, resource: nat, deadline: nat, k': State, outcome: BlockOutcome) {
    if k.current !in k.mem then outcome == NoCurrentTask && k' == k.(blocksWithoutCurrent := k.blocksWithoutCurrent + 1)
    else
      var me := k.mem[k.current];
      && (outcome == AlreadyPast <==> deadline != 0 && deadline <= k.ticks)
      && (outcome == AlreadyPast ==> k' == k)
      && (outcome != AlreadyPast ==>
            && outcome == BlockedNow
            && k' == k.(mem := k.mem[k.current := me.(state := Blocked, blockedOn := resource, deadline := deadline)]))
  }

  /** block_for_ticks: the deadline is computed from the clock inside the section. */
  function BlockForTicks(k: State, resource: nat, ticks: nat): (State, BlockOutcome) {
    MarkBlocked(k, resource, DeadlineAdd(k.ticks, ticks))
  }

  /** block_until_tick_if, with the answer its closure gives. */
  function BlockUnless(k: State, resource: nat, deadline: nat, ready: bool): (State, BlockOutcome) {
    if ready then (k, ReadyNow) else MarkBlocked(k, resource, deadline)
  }

  /** take_wake_flag_locked. */
  function TakeWakeFlag(k: State): (State, bool) {
    if k.current !in k.mem then (k, false)
    else (k.(mem := k.mem[k.current := k.mem[k.current].(woken := false)]), k.mem[k.current].woken)
  }

  function ClearTimerDeadline(k: State): State {
    if k.current !in k.mem then k
    else k.(mem := k.mem[k.current := k.mem[k.current].(deadline := 0)])
  }

  /** Keep the earliest of the deadlines asked for. */
  function SetTimerDeadline(k: State, deadline: nat): State {
    if deadline == 0 || k.current !in k.mem then k
    else
      var armed := k.mem[k.current].deadline;
      if armed == 0 || deadline < armed
      then k.(mem := k.mem[k.current := k.mem[k.current].(deadline := deadline)])
      else k
  }
}
