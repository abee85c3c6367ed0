# rrkernel: a verified model of the scheduler core

rrkernel is a preemptive kernel without priorities: tasks take turns in a ring, and a ring
member can be a group with a ring of its own.  This project models the backend-neutral core
in Dafny and proves what it is for: that every group sees one continuous, fair timeline, that
the linked structures survive every order of ticks, switches and critical sections, that
waits end when they should and wake-ups are not lost, and that the arena and the byte pipe
keep their promises.  `dafny verify dfyconfig.toml` verifies everything.

## How it is built

Kernel memory is a map from addresses to task control blocks; address zero is null.  The
kernel is modelled twice.

* **As it runs.**  `Scheduler.Kernel` is an object whose fields (`mem`, `current`,
  `pending`, `ticks`, ...) are updated in place by methods with the source's loops, step
  limits and early returns.  `Allocator.Arena`, `Pipes.Pipe` and `Events.Signal` are the same
  for the arena, the pipe and the signal.
* **As functions.**  `Dispatch`, `Walk`, `Lifecycle`, `Blocking`, `Arena`, `Signals` and
  `Executor` give each of those operations as a function on values.  Every method is proved
  to compute its function, and the theorems below are proved about the functions.

A `Tree` value names the parent, ring position, depth and slice of every node; `Represents`
says memory holds that tree, and `WellFormed` is the kernel invariant.  `Runs.Step` lists
what can happen between two critical sections; a run is any legal sequence of steps.

| modules | subject |
|---|---|
| RoundRobin, Tree, Climb, Timeline, Windows, Boot, RootQuantum | the closed form of nested round robin, and what follows from it |
| Memory, Dispatch, Rings, Soundness, Conserve, Choice, Handover, HiddenWork | dispatch in arbitrary states: who is picked, what a switch writes |
| Lists, Lifecycle, Circles, Growth, Departure, Invariant, Books, Births, Exits, Runs, Ledger | ring surgery, life cycle, invariant, accounting |
| Waiting, Rotation, LateTurn | how long a task waits for its turn |
| Walk, WalkOrder, Callbacks, Coverage | the bounded tree walk behind every wake-up |
| Blocking, Time, Deadlines, Waking, Foreign, Sleeping, Parking, Signals, Histories, Executor, Stranded | blocking, deadlines and the wake-up protocols |
| Arena, Allocator, Pipes, Events, Scheduler | the arena, and the in-place objects |

## Where the code does not do what it says

* The root's quantum is called unbounded (src/scheduler.rs:152-160,
  docs/NESTED_SCHEDULING.md:55).  It is 2^32 - 1 ticks and is drained like any other.  The
  nested timeline is proved for fewer ticks than that; `RootQuantum.ClosedFormForever` shows
  that it goes on after that exactly when the root has a single child.
* The walk limit of one step per node plus two (src/scheduler.rs:504-507) is not enough: a
  node costs up to two steps.  `Coverage.FiveTasksAreTooMany` shows that with five or more
  tasks, none of which has finished yet, the last one of the ring is never looked at, so its
  sleeps and timeouts do not end and wakes for it are lost.  Lemmas about delivered wakes
  therefore either assume that the walk covers the tree or say exactly which nodes it
  reaches; `Coverage.SmallKernelsAreCovered` shows when nothing needs to be assumed.
* "A node with no runnable descendant bubbles up" (docs/NESTED_SCHEDULING.md:49): a descent
  tries one child per group, so an empty group at a cursor hides its runnable siblings.
  `HiddenWork.WorkCanHide` is a run that does it, `Conserve.WorkIsHiddenExactly` says exactly
  when it happens, and `Conserve.WorkIsConserved` gives a shape of tree in which it cannot.
* Worst-case latency is said to be "(number of tasks - 1) x slice, full stop"
  (README.md:33-37).  With no current task, as after an exit whose successor is blocked, the
  dispatcher runs a child without moving the root's cursor there (src/scheduler.rs:665-677), so
  the next hand-over starts from the wrong place and passes over whom it should have come to.
  `LateTurn.TurnsCanComeLate` is a run that does it, `Rotation.OtherSlicesAreEnoughIff` (and
  `OtherSlicesAreEnoughIdle`, with no current task) says exactly when the documented bound
  holds, and `Waiting.WaitIsBounded` is a bound that holds in every flat state.
* `WaitQueue::wake_all` is said to end the waits on its queue (src/event.rs:228-258).  It
  releases the waiters without raising their wake flags, which is all that `wait` looks at, so
  each of them blocks again at its next turn.  `Parking.WakeAllIsSleptThrough` is such a run,
  and `Parking.WokenIffCalled` says exactly when a wait ends: when the task was woken by id or
  by the single hand-off.
* A deadline computed by wrapping 64-bit addition can lie in the past; the sleep then does
  not happen (`Deadlines.SleepStarts` gives the exact condition).

## Model

| member | source | states |
|---|---|---|
| RoundRobin.OwnerStep | src/scheduler.rs:606-648 | one tick moves the turn to the next slot of the ring exactly when the owner has used its whole slice, and otherwise not at all |
| RoundRobin.ShareStep | src/scheduler.rs:606-648 | a tick adds one to the owner's share of the lap and to nobody else's |
| RoundRobin.DivisionIsDivision | src/scheduler.rs:606-648 | the quotient and remainder the closed form is written with are integer division and modulus |
| Tree.CountStep | src/scheduler.rs:606-648 | the number of ticks the closed form gives a node grows by one with exactly the ticks that run below it |
| Tree.TurnStep | src/scheduler.rs:606-648 | inside a served group the turn passes on exactly when the child's slice is used up |
| Tree.ServedLeaf | src/scheduler.rs:581-604 | reading the closed form from the root or from any node on the running path names the same leaf |
| Climb.DrainSpendsPath | src/scheduler.rs:778-790 | a tick takes one from the running leaf and each of its ancestors (never below zero) and touches no other field of no other block |
| Timeline.TickKeepsTime | src/scheduler.rs:657-739 | one tick (drain, outermost exhausted node, retiring spent nodes, advancing, descending, arming) takes the state of the closed form at k to that at k + 1: every cursor at offset T mod L, every quantum at slice minus T mod slice |
| Timeline.RunIsRoundRobin | src/scheduler.rs:581-762 | while everybody stays runnable and no group is empty, tick number k < 2^32 - 1 runs the leaf hierarchical weighted round robin names by division alone, with no cursor or remaining quantum in the formula |
| Timeline.FreshRunIsRoundRobin | src/scheduler.rs:581-762 | the same from any tree with full quanta and first-child cursors |
| Boot.BootedRunIsRoundRobin | src/scheduler.rs:93-183 | init followed by any spawns, in any order and with any of them failing, is such a start as soon as no group is empty, so the k-th tick after it follows the closed form; and the tree it is read from is the one asked for: each granted spawn under its parent with its own quantum (one tick at least), the first child of each ring first and the others latest first |
| Boot.UnstartedIsInPlace | src/scheduler.rs:93-183 | a kernel that has only spawned tasks is in place: the cursor stands at the current task |
| RootQuantum.ClosedFormForever | src/scheduler.rs:709-738 | the closed form holds for ever if and only if the root has a single child; with any other number of children it fails at tick 2^32 - 1, when the root's own quantum is spent and the top-level cursor is moved twice |
| RootQuantum.TwoChildrenTick | src/scheduler.rs:709-738 | a tick that leaves nothing at the root of two or more children never runs the leaf whose turn it is |
| RootQuantum.SingleChildTick | src/scheduler.rs:709-738 | with one child at the top a worn-out root changes nothing: every cursor and quantum stays that of the closed form |
| Windows.TraceIsTimeline | src/scheduler.rs:657-739 | the leaves run below a group, over all its visits, are the group's own closed form read from its own tick zero without a gap |
| Windows.WindowIndependence | src/scheduler.rs:657-739 | that sequence is the same whatever the group's own quantum and whatever runs beside or above it, at any depth |
| Windows.TicksBelowIsCount | src/scheduler.rs:606-648 | the ticks really run below a node are the number the closed form gives it |
| Windows.SiblingsAreFair | src/scheduler.rs:606-648 | after every tick the ticks Ti and Tj of two siblings with slices si and sj satisfy that Ti * sj and Tj * si differ by at most si * sj |
| Windows.NobodyStarves | src/scheduler.rs:606-648 | a child runs again before its group has run for longer than the slices of the other children together |
| Windows.DepthOneIsTheRing | docs/NESTED_SCHEDULING.md:76-77 | without groups and with one-tick slices tick k runs task k modulo the number of tasks: the flat scheduler |
| Windows.IdleRunIsRoundRobin | src/scheduler.rs:665-677 | the closed form also holds from a start with no current task: the first tick spends nothing and dispatches the first leaf |
| Rings.NextRunnableIsFirst | src/ring.rs:112-132 | the first runnable strict successor in ring order, else the node itself if it can run, else null and then nobody in the ring can run |
| Rings.FirstRunnableIsFirst | src/ring.rs:96-104 | the node itself if it can run, else its first runnable successor, else null |
| Rings.ResumeIsFair | src/scheduler.rs:559-575 | a visit resumes on the cursor if it can run, else on the first child after it that can, else nobody in the ring can run |
| Growth.InsertRepresents | src/scheduler.rs:1468-1501 | after an insertion memory holds the tree with the newcomer directly behind its parent's cursor (or alone in the ring), all other rings as they were |
| Departure.UnlinkCloses | src/ring.rs:53-75 | unlinking closes the ring around the node, poisons its links and returns its cyclic successor, or null for the last member |
| Circles.InsertBehind | src/ring.rs:21-37 | on any doubly linked ring, insert_after gives the ring with the node directly behind its anchor |
| Circles.UnlinkCloses | src/ring.rs:53-75 | on any doubly linked ring, unlink gives the ring without the node, nulls the node's links and returns its successor, or null if it was alone |
| Circles.InsertThenUnlink | src/ring.rs:21-75 | unlinking what was just inserted restores the ring and returns the old successor of the anchor |
| Departure.ExitRepresents | src/trampoline.rs:65-98 | after an exit memory holds the tree without the leaf: its ring closed, its parent's head and cursor moved past it, nothing else touched |
| Soundness.PickOffers | src/scheduler.rs:657-739 | in any state, with any tasks blocked and any groups empty, a picked leaf is linked, alive and unblocked, has quantum at every level below the root (at the root too while the root has some), and only cursors and spent quanta were written |
| Invariant.ScheduleIsSound | src/scheduler.rs:866-894 | schedule_next keeps the kernel invariant; a returned task is a linked, living, unblocked leaf, it owns the CPU, and every node on its path below the root holds between one tick and its slice, the root too if it had anything left; null leaves the current task alone |
| Conserve.PickIffYields | src/scheduler.rs:581-762 | the dispatcher finds nobody exactly when the current leaf does not stay and no resume chain beside or above the place where the search starts ends in a runnable leaf |
| Choice.RetireExact | src/scheduler.rs:709-726 | in any state: every spent node on the path strictly below z with somebody runnable in its ring loses its place to the first runnable node after it, blocked neighbours passed over, and nothing else is written |
| Choice.DescendNames | src/scheduler.rs:581-604 | a descent runs to the end of the resume chain of the node it starts from and leaves the cursors on the way standing on the leaf's path |
| Choice.AdvanceNames | src/scheduler.rs:612-648 | handing the turn on serves, in the lowest ring from the given group upward that has a child whose resume chain yields, the first such child behind the cursor; that ring's cursor moves there, every other group would resume where it would have, and nothing outside is written |
| Choice.PickNames | src/scheduler.rs:657-739 | which leaf is picked in any state, with tasks blocked and groups empty: the current one if it can run and nothing on its path is spent; otherwise the search starts beside the outermost spent node (at the root if there is none, after the root's own resume chain if there is no current leaf), once the spent nodes below it have lost their places, and names the end of the first resume chain that yields; nobody if none does |
| Handover.SwitchNames | src/scheduler.rs:866-894 | one switch in full: that choice, then the dispatched task is running, a displaced running task is ready, everybody else's state is as it was, and the switch is counted if and only if the CPU changes hands |
| Handover.RunningIsCurrent | src/scheduler.rs:884-887 | in every state reachable from init, a task marked running is the current one |
| Handover.FinishedIsNobody | src/scheduler.rs:867-873 | a current task that has finished and left its ring counts as no current task |
| Conserve.WorkIsConserved | src/scheduler.rs:581-648 | when no group inside a group is out of work (in particular when groups are not nested) null means no leaf can run, and conversely |
| Conserve.WorkIsHiddenExactly | src/scheduler.rs:581-648 | "null means nobody can run" holds at a switch if and only if nobody can run, or the current leaf stays, or a resume chain in reach of the search ends in a runnable leaf |
| HiddenWork.WorkCanHide | src/scheduler.rs:591-594 | general work conservation is false: a legal run of three spawns and an exit after which a runnable task is passed over at every switch for ever |
| Runs.StepWellFormed | src/scheduler.rs:657-1758 | every step (tick, switch, block, wake, timer, spawn, group spawn, exit, reclaim) keeps the invariant: doubly linked rings with the right parents, heads and cursors among their own children, no link to a dead or freed block |
| Runs.RunWellFormed | src/scheduler.rs:93-183 | the invariant holds in every state reachable from init |
| Runs.ThreadsAreConserved | src/scheduler.rs:1622-1669 | in every reachable state spawned = linked + waiting to be freed + freed, active counts the linked leaves, and every block is in the tree or on the deferred-free list, never both |
| Ledger.DispatchIsSound | src/scheduler.rs:866-894 | dispatch soundness after every legal run from init, idle or not: a returned task is a linked, living, unblocked leaf with between one tick and its slice left at every level below the root, and at the root too in every run of fewer than 2^32 - 1 ticks |
| Books.SpawnWellFormed | src/scheduler.rs:1512-1758 | a spawn keeps the invariant and counts itself |
| Births.SpawnIsBorn | src/scheduler.rs:1512-1758 | the newcomer has exactly the quantum asked for (one tick at least) as its slice and its remaining time, in memory and in the tree, is ready with its flag down and no deadline, and has the id that was next; everybody else keeps every field but ring links, a parent with children keeps head and cursor, and the counters and the level-one head move as the source moves them |
| Books.ExitWellFormed | src/trampoline.rs:58-104 | an exit keeps the invariant and moves the thread to the deferred-free list |
| Exits.ExitIsGone | src/trampoline.rs:58-104 | field by field: the leaver is dead, unlinked and heads the deferred-free list; the parent's head and cursor move to its successor exactly if they stood at it; the level-one head moves exactly if it left the top ring; nothing else is written |
| Books.ReclaimWellFormed | src/scheduler.rs:1622-1669 | a drain frees every finished thread that is not pinned exactly once, puts the pinned ones back, and moves nothing in the tree |
| Exits.ReclaimIsExact | src/scheduler.rs:1622-1658 | a block is gone afterwards if and only if it was a finished thread that is not pinned, each is counted once, and no block of the tree below the root is touched |
| Ledger.QuantaBalance | src/scheduler.rs:746-790 | over every legal run of fewer than 2^32 - 1 ticks in which the CPU never goes idle: ticks run below a node + its remaining quantum = slice * (1 + re-arms), for every node but the root, whatever blocks, wakes, spawns or exits |
| Waiting.WaitIsBounded | src/scheduler.rs:657-739 | in any flat state a task that stays runnable is current at some point of any run with as many ticks as the current task has left plus the slices strictly between the root's cursor and it, however the others block and wake and however many switches are asked for; with no current task, one tick plus, unless the cursor is at it, the longest slice from the cursor up to it and the slices strictly between |
| Waiting.WaitInPlace | README.md:33-37 | where the rotation is in place, the slices of the other tasks are enough |
| Waiting.ReachableRing | src/scheduler.rs:93-183 | the general bound applies to every flat state the kernel can reach from init, exits included |
| Rotation.WaitsExactly | src/scheduler.rs:657-739 | while everybody can run, a task is current within b ticks if and only if what the current task has left and the turns due before it fit into b |
| Rotation.OtherSlicesAreEnoughIff | README.md:33-37 | the documented bound, exactly: with everybody runnable and nobody but the current task in the middle of a turn, x is current within the slices of the other tasks if and only if the root's cursor is not at x and the current task has no more left than the slices on the arc after x up to and including the cursor |
| Rotation.OtherSlicesAreEnoughIdle | src/scheduler.rs:665-677 | the same with no current task: if and only if the cursor is at x and x is not alone, or the cursor is elsewhere and not directly behind x |
| LateTurn.TurnsCanComeLate | src/scheduler.rs:665-677 | the documented bound fails: after a legal run of twelve steps from init three tasks with one-tick slices are left, all runnable, and the next two ticks do not run the third |
| Rotation.AdvanceRestoresPlace | src/scheduler.rs:709-738 | the next time the turn is handed on, cursor and current task are together again |
| Rotation.TickRestoresPlace | src/scheduler.rs:709-738 | and a tick that takes the current task's last quantum does hand it on |
| Rotation.SpawnKeepsPlace | src/scheduler.rs:1677-1758 | a spawn, granted or refused, leaves the rotation in place |
| Waiting.OneTickSlices | README.md:33-37 | with one-tick slices that sum is the number of other tasks |
| WalkOrder.WalkIsPreorder | src/scheduler.rs:804-855 | the bounded walk visits the tree below the root in preorder, as far as its step budget goes |
| WalkOrder.WalkReaches | src/scheduler.rs:804-855 | it reaches the j-th node (from zero), d levels below the top one, if and only if 2j + 1 - d steps are allowed |
| WalkOrder.WalkCovers | src/scheduler.rs:804-855 | with 2N - 1 steps for N nodes it visits everybody exactly once |
| WalkOrder.WalkTerminates | src/scheduler.rs:804-855 | on any structure, malformed or not, it stops within its budget |
| Coverage.ExpiryReachesExactly | src/scheduler.rs:1370-1391 | a tick wakes an expired sleeper if and only if the walk's step limit reaches it |
| Coverage.LastOfTheRing | src/scheduler.rs:504-507 | in a flat kernel of n tasks the last of the ring is swept if and only if the node counter is at least 2n - 3 |
| Coverage.FiveTasksAreTooMany | src/scheduler.rs:504-507 | after init and n - 1 spawns the sweep sees the last task of the ring if and only if n <= 4 |
| Coverage.SmallKernelsAreCovered | src/scheduler.rs:504-507 | in every reachable state with at most four nodes below the root the step limit covers the tree |
| Deadlines.WakeDelivers | src/scheduler.rs:1056-1080 | where the walk covers the tree, wake_task sets the flag of exactly the task with that id, unblocks it if blocked, and touches nobody else |
| Deadlines.WakeReachesExactly | src/scheduler.rs:1056-1080 | without coverage the wake arrives if and only if 2j + 1 - d steps are allowed |
| Deadlines.OneWaiterIsWoken | src/scheduler.rs:1172-1195 | the single hand-off finds a waiter if there is one, wakes exactly one, and says so |
| Waking.ReleaseExact | src/scheduler.rs:1346-1364 | field by field: every visited task blocked on the resource, whatever its deadline, becomes ready with no resource and no deadline, its flag as it was; every other block is unchanged |
| Waking.ReleaseLeavesNobody | src/scheduler.rs:1346-1364 | where the walk covers the tree, nobody is left blocked on the resource and nobody else is touched |
| Waking.CallExact | src/scheduler.rs:1056-1080 | field by field: the visited task with that id has its flag up, and if it was blocked it is ready with no resource and no deadline; every other block is unchanged |
| Waking.HandOffExact | src/scheduler.rs:1172-1195 | the first visited waiter, and nobody else, becomes ready with its flag up and no resource or deadline; the answer is no exactly when no visited task waits |
| Waking.TickExact | src/scheduler.rs:898-909 | a tick takes one off every non-zero quantum from the current leaf to the root and makes exactly the visited tasks whose deadline has come ready, at the new time, with their flags as they were |
| Deadlines.NobodyIsLate | src/scheduler.rs:1370-1391 | after a covered tick nobody is blocked past a deadline |
| Deadlines.SleepStarts | src/scheduler.rs:1293-1299 | a sleep blocks the caller until exactly the least number of ticks that covers the duration from now, if and only if the sum fits 64 bits |
| Deadlines.SleepIsExact | src/scheduler.rs:1293-1391 | a sleeper left alone by everybody but the clock is blocked at every tick before its deadline and awake at it, over every run |
| Sleeping.SleepsExactlyUntil | src/scheduler.rs:1326-1339 | in every interleaving sleep_until_tick returns no earlier than its tick, whoever wakes the task in between, and the task is never left asleep past it |
| Sleeping.SleepsExactlyUntilFromInit | src/scheduler.rs:1326-1339 | the same for any living task, after any legal run from init |
| Sleeping.EarlyWakesAreSleptThrough | src/scheduler.rs:1326-1339 | a task woken early goes back to sleep for the same tick |
| Time.TicksForIsLeast | src/time.rs:42-54 | a duration is rounded up to the least number of ticks, at least one, that covers it |
| Time.TicksForSaturates | src/time.rs:42-54 | the answer falls short of the duration exactly when 64 bits cannot hold the number of ticks |
| Time.PeriodsDoNotDrift | src/time.rs:68-75 | n periods added to an absolute deadline are exactly n periods (modulo 2^64) |
| Foreign.OthersOnlyWake | src/scheduler.rs:985-1391 | whatever step somebody else takes, a task stays in the tree, is not blocked unless it was, and while it stays blocked keeps its flag and deadline |
| Histories.FlagIsLastSet | src/event.rs:126-185 | after any history of set, try_take and wait sections the flag is up if and only if the last one was a set: whatever comes next consumes it, and sets in a row are consumed together |
| Histories.WaiterIsLastToRegister | src/event.rs:126-185 | after any such history a task is the registered waiter if and only if it waited without being given a set, and nobody has set the signal or waited since |
| Signals.NoLostWakeUp | src/event.rs:126-185 | in every interleaving of sets, takes, deliveries and kernel steps a task blocked in wait has a wake in flight, or is the registered waiter of a lowered flag; it is blocked on its own id until exactly the deadline it asked for, and a wait that answers a timeout had a deadline and it is past |
| Signals.NoLostWakeUpFromInit | src/event.rs:126-185 | the same for a fresh signal and any living task, after any legal run from init |
| Signals.RaisedFlagIsSeen | src/event.rs:126-185 | once every claimed wake is delivered nobody is left blocked beside a raised flag |
| Signals.SetClaimsTheWaiter | src/event.rs:126-138 | a set that finds the waiter blocked has claimed it when its section ends |
| Signals.TurnDecides | src/event.rs:163-185 | a turn of wait ends with the signal if and only if it found the flag up, with a timeout if and only if it did not and the deadline is past, and otherwise blocks the task until exactly that deadline, registered under a lowered flag |
| Signals.WaitsEndOnTime | src/event.rs:163-185 | in every interleaving whose sweeps reach it, a task is never left blocked in wait past the deadline it asked for |
| Signals.WaitsEndOnTimeFromInit | src/event.rs:163-185 | the same for a fresh signal and any living task, after any legal run from init |
| Executor.SleepsKeepTime | src/exec.rs:81-161 | in every interleaving of block_on over joined sleeps: no sleep resolves early, the park's deadline is exactly the least pending one, and the task is never parked with its wake flag up or past a deadline |
| Executor.SleepsKeepTimeFromInit | src/exec.rs:81-161 | the same for any living task, after any legal run from init: nothing resolves early, and a parked task has its flag down and a deadline that is exactly the least pending one and still ahead |
| Executor.WakeForcesAnotherPoll | src/event.rs:45-64 | a wake that arrives during a poll makes the park return at once |
| Executor.TurnsStartClean | src/exec.rs:81-104 | each turn starts with the flag down and no deadline armed, and polling a pending sleep resolves it if and only if its tick has come |
| Executor.ReturnsWhenDone | src/exec.rs:81-104 | block_on returns only when every joined sleep has resolved |
| Parking.OnlyCallsAreHeard | src/scheduler.rs:1056-1195 | of all steps others can take, exactly wake_task for its id and a queue's single hand-off raise a task's wake flag, and neither leaves it blocked |
| Parking.WaitsAreHonest | src/event.rs:45-64 | in every interleaving of park or WaitQueue::wait: "woken" is answered exactly when the task has been called since it last took its flag, a timeout only at the deadline or later, and the task is blocked only while nobody has called it and the deadline is ahead |
| Parking.WaitsAreHonestFromInit | src/event.rs:187-257 | the same for any living task, after any legal run from init |
| Parking.TurnDecides | src/event.rs:228-246 | a turn ends the wait as woken if and only if there was a call, as timed out if and only if there was none and the deadline is past, and otherwise blocks the task on the same resource until the same deadline |
| Parking.WokenIffCalled | src/event.rs:228-258 | whatever the others do while a task waits, its next turn ends the wait as woken if and only if one of those moves called it |
| Parking.ReleaseEndsNoWait | src/event.rs:253-258 | a wait that nobody calls never ends as woken, however often wake_all releases its queue: without a deadline it goes on for ever |
| Parking.WakeAllIsSleptThrough | src/event.rs:253-258 | so wake_all does not end a wait: from init, task 0 waits on a queue, wake_all finds it and makes it ready, and its next turn blocks it on the queue again |
| Stranded.NobodyIsStranded | src/io.rs:112-210 | in every interleaving of one reader, one writer and interrupt pushes: a reader blocked beside bytes, or a writer blocked beside room, has a set or a wake on its way; accepted bytes = popped bytes followed by buffered bytes, never more than 256 buffered |
| Stranded.NobodyIsStrandedFromInit | src/io.rs:112-210 | the same for a new pipe between any two living tasks, after any legal run from init |
| Stranded.ReaderTurnDecides | src/io.rs:189-197 | a turn of a waiting reader goes back to popping if and only if it found the data flag up, gives up if and only if it did not and the deadline is past, and otherwise blocks until exactly that deadline |
| Stranded.WriterTurnDecides | src/io.rs:200-210 | the same for a waiting writer and the space flag |
| Stranded.WaitsEndOnTime | src/io.rs:189-210 | in every interleaving whose sweeps reach them, neither a reader nor a writer is left blocked past the deadline it asked for |
| Stranded.SectionsMoveAllTheyCan | src/io.rs:136-173 | a pop stops only at its room or an empty buffer, a push only at its end or a full buffer, and each owes a set exactly when it moved something |
| Arena.AllocKeeps | src/arena.rs:168-219 | an allocation fails and changes nothing, or adds exactly one lease of the size and alignment asked for; carved blocks stay partitioned into free and leased |
| Arena.FreeKeeps | src/arena.rs:236-253 | a free puts exactly that block at the head of the free list, and the live count never saturates |
| Arena.RefusedIffFull | src/arena.rs:168-219 | an allocation is refused if and only if it asks for nothing, or no free block fits and the rest of the region is too small |
| Arena.AllocPlaces | src/arena.rs:168-219 | an allocation goes to the first free block on the list that fits, with nothing carved; if none fits, to the first aligned address that leaves room for header and slot above everything carved, and the region is used exactly up to the end of the payload |
| Arena.PayloadsAreApart | src/arena.rs:168-219 | a live payload is aligned, inside the region, past its own header and slot, and apart from the header, slot and payload of every other block, live or free |
| Arena.LivePayloadsAreApart | src/arena.rs:168-219 | two live payloads never overlap |
| Arena.FreedIsReused | src/arena.rs:168-253 | freeing a block and repeating its request returns the same payload without carving |
| Arena.ArenaIsSafe | src/arena.rs:168-262 | after every legal sequence of allocations and frees the leases are exactly the outstanding payloads and live is the sum of their sizes |
| Arena.CountersBalance | src/arena.rs:256-262 | after every such sequence allocations = frees + outstanding, and peak is exactly the most bytes that were ever live at once |
| Allocator.PayloadsAreAligned | src/arena.rs:299-302 | with power-of-two alignments a live payload is a multiple of the alignment asked for, also where the pointer size forced a coarser one |
| Allocator.AlignUpMasks | src/arena.rs:299-302 | for a power of two, adding align - 1 and clearing its bits gives the least multiple not below the address |
| Scheduler.Kernel.constructor | src/scheduler.rs:93-183 | init leaves the root group of 2^32 - 1 ticks and the adopted task 0, running, with id 1 and a one-tick slice, every counter as in the source, and the invariant holds |
| Scheduler.Kernel.NextRunnable | src/ring.rs:112-132 | the ring walk returns the first runnable strict successor, the node itself, or null |
| Scheduler.Kernel.FirstRunnableFrom | src/ring.rs:96-104 | the inclusive walk: the node itself when it can run, else its first runnable successor |
| Scheduler.Kernel.Len | src/ring.rs:138-149 | counts the children of the ring's parent |
| Scheduler.Kernel.ResumeChild | src/scheduler.rs:559-575 | the child a visit resumes on |
| Scheduler.Kernel.ArmIfNeeded | src/scheduler.rs:532-539 | the node has at least one tick left afterwards: a whole slice if it had none (one tick if its slice is zero), and exactly what it had, with memory untouched, if it had some |
| Scheduler.Kernel.DescendAndArm | src/scheduler.rs:581-604 | goes down to the leaf at the end of the start's resume chain, if that yields, with quantum at every level, writing only cursors and spent quanta below the start |
| Scheduler.Kernel.AdvanceFrom | src/scheduler.rs:612-648 | hands the turn to the first child that yields behind the cursor of the lowest ring, from the given group upward, that has one; null if none has |
| Scheduler.Kernel.OutermostExhausted | src/scheduler.rs:746-762 | the outermost node of the path with nothing left, or null |
| Scheduler.Kernel.RetireSpent | src/scheduler.rs:709-726 | every spent node strictly below z loses its place to the first runnable node after it in its ring, and nothing else is written |
| Scheduler.Kernel.PickNextLeaf | src/scheduler.rs:657-739 | the leaf that Choice.PickNames says, in any state, or null exactly when it says nobody |
| Scheduler.Kernel.ScheduleNext | src/scheduler.rs:866-894 | the switch: invariant kept, the leaf Choice.PickNames says owns the CPU and is running, a displaced running task is ready, everybody else's state is as it was, the switch is counted; an armed quantum on the leaf's path at every level below the root, and at the root if it had any left |
| Scheduler.Kernel.DrainCurrentPath | src/scheduler.rs:778-790 | spends one tick of every quantum from the current leaf to the root |
| Scheduler.Kernel.WalkTree | src/scheduler.rs:804-855 | hands the visited nodes to its callback one after the other, updating them in place, on any structure |
| Scheduler.Kernel.WakeExpired | src/scheduler.rs:1370-1391 | exactly the visited tasks blocked until now or earlier become ready, with no resource, no deadline and their flags as they were |
| Scheduler.Kernel.OnTick | src/scheduler.rs:898-909 | one tick more on the clock, one off every non-zero quantum on the current path, then the sweep at the new time, block by block; the invariant is kept and, where the walk covers the tree, nobody is left past a deadline |
| Scheduler.Kernel.WakeTask | src/scheduler.rs:1056-1080 | exactly the visited task with that id has its flag up, and if it was blocked is ready with no resource and no deadline |
| Scheduler.Kernel.WakeBlockedOn | src/scheduler.rs:1346-1364 | exactly the visited tasks blocked on the resource, whatever their deadlines, are ready with no resource, no deadline and their flags as they were; where the walk covers the tree nobody is left blocked on it |
| Scheduler.Kernel.WakeFirstBlockedOn | src/scheduler.rs:1172-1195 | the first visited waiter is ready with its flag up and no resource or deadline, nobody else is touched, and the answer says whether there was one |
| Scheduler.Kernel.MarkBlocked | src/scheduler.rs:985-1007 | blocks the current task on the resource until exactly the deadline; past the deadline nothing happens, and without a current task the attempt is counted and refused |
| Scheduler.Kernel.BlockUnless | src/scheduler.rs:1033-1046 | the check-and-block section: ready means nothing is blocked |
| Scheduler.Kernel.TakeWakeFlag | src/scheduler.rs:1087-1095 | reads and clears the current task's wake flag |
| Scheduler.Kernel.ClearTimerDeadline | src/scheduler.rs:1099-1108 | clears the current task's deadline |
| Scheduler.Kernel.SetTimerDeadline | src/scheduler.rs:1119-1134 | the current task's deadline becomes the earliest non-zero one of what it was and what is asked for; nothing else is written |
| Scheduler.Kernel.InsertAfter | src/ring.rs:21-37 | every ring that holds the anchor becomes that ring with the node directly behind the anchor, or the node is a ring of one; node by node, only the links of the anchor, the node and the old successor change |
| Scheduler.Kernel.InsertChild | src/scheduler.rs:1468-1501 | memory that held a tree beside a newcomer holds the tree with the newcomer directly behind its parent's cursor |
| Scheduler.Kernel.SpawnGroup | src/scheduler.rs:1512-1541 | a new group joins its parent directly behind the cursor with exactly the quantum asked for (one tick at least), everybody else undisturbed; invariant kept |
| Scheduler.Kernel.SpawnLeaf | src/scheduler.rs:1677-1758 | a new task joins its parent directly behind the cursor with exactly the quantum asked for (one tick at least), ready, with the next id, and is counted, everybody else undisturbed; a failed spawn leaves memory and tree alone and spends only the node count and the id the source spends; invariant kept |
| Scheduler.Kernel.Unlink | src/ring.rs:53-75 | every ring that holds the node closes around the gap and the node's successor, or null, is returned; the node's links are null and, node by node, only its two neighbours change besides |
| Scheduler.Kernel.ExitTask | src/trampoline.rs:58-104 | the finished task is dead, unlinked and heads the deferred-free list, its parent's head and cursor and the level-one head pass to its successor where they stood at it, and nothing else is written; invariant kept |
| Scheduler.Kernel.ReclaimFinished | src/scheduler.rs:1622-1658 | frees and counts exactly the finished tasks that are not pinned, keeps the pinned ones queued and the tree untouched; invariant kept |
| Events.Signal.SetSection | src/event.rs:126-138 | afterwards the flag is up and nobody is registered, and whoever was registered is handed to the caller to be woken |
| Events.Signal.Set | src/event.rs:126-138 | the flag is up, nobody is registered, and the claimed waiter has been woken |
| Events.Signal.TryTake | src/event.rs:141-147 | says whether the flag was up, leaves it down, and does not touch the waiter |
| Events.Signal.WaitSection | src/event.rs:163-185 | one turn of wait: a raised flag is consumed; under a lowered one the caller is registered and is blocked on its own id until exactly the deadline, or times out if that is past, in one section |
| Events.ParkSection | src/event.rs:45-64 | one turn of park: a raised wake flag is consumed; otherwise the caller is blocked on its own id until exactly the deadline, or times out if that is past |
| Events.PollSleep | src/exec.rs:153-161 | due exactly when the clock has reached the deadline, otherwise armed in the task |
| Events.PollAll | src/exec.rs:81-104 | one turn of block_on over joined sleeps up to the park: exactly the due ones resolve, and the timer left behind is the least pending deadline |
| Pipes.Pipe.constructor | src/io.rs:83-91 | an empty pipe with both signals down and nobody registered |
| Pipes.Pipe.Len | src/io.rs:94-99 | the number of buffered bytes, also after the machine-word indices have wrapped |
| Pipes.Pipe.Room | src/io.rs:107-109 | what still fits |
| Pipes.Pipe.PushFromIsr | src/io.rs:112-133 | appends the byte, sets the data signal and wakes its waiter; or refuses it, with nothing changed, exactly when 256 are buffered |
| Pipes.Pipe.PopInto | src/io.rs:136-152 | moves the oldest bytes out, as many as fit, in order; if there were any, sets the space signal and wakes its waiter |
| Pipes.Pipe.WriteFromIsr | src/io.rs:155-173 | appends the longest prefix that fits, in order, and returns its length; if that is not zero, sets the data signal and wakes its waiter |
| Allocator.Arena.constructor | src/arena.rs:147-156 | a fresh region with nothing carved |
| Allocator.Arena.AlignUp | src/arena.rs:299-302 | the least multiple of the alignment not below the address |
| Allocator.Arena.FindFit | src/arena.rs:174-201 | the first block of the free list that fits, with its predecessor |
| Allocator.Arena.Alloc | src/arena.rs:168-219 | null and nothing changed, or one more lease of that size and alignment; invariant kept |
| Allocator.Arena.Free | src/arena.rs:236-253 | exactly that payload is no longer outstanding; null and already freed pointers are ignored; invariant kept |
| Allocator.Arena.FreeBlocks | src/arena.rs:268-287 | the length of the free list, cut off at one million and one |

## Left out

- Scheduler.Kernel.ScheduleNext: the per-task counters `slices_run` and `switches` and the latency and period statistics are not modelled; they feed nothing but diagnostics.
- Scheduler.Kernel.WalkTree: the 32-bit saturation of the step limit is not modelled, because it needs 2^32 nodes; neither is the 64-bit wrap of the tick counter or the 32-bit wrap of task ids, so ids are taken never to be reused.
- Scheduler.Kernel.SpawnLeaf: what the arena and the port answer (no block, no closure block, no backend) is a parameter; a refused spawn keeps the node counter and the task id it took, as the source does.
- Scheduler.Kernel.ReclaimFinished: the set of pinned tasks is a parameter, and the closure and stack blocks freed along with a task are not followed.
- Scheduler.Kernel.ExitTask: the finishing task is the current one; the form with an explicit task argument is the same body.
- Scheduler.Kernel: control blocks are entries of one map field rather than separate heap objects, so aliasing is between addresses; a null test is a test for membership.
- Parking.WaitsAreHonest: the call with no current task, which answers a timeout at once, is not a move of the machine, which follows one task; `event::wait_until` is not modelled.
- Scheduler.Kernel.MarkBlocked: asking for a switch is not a state change here; a switch may come at any time in every run.
- Events.Signal.WaitSection: the retry loops of wait, park, block_on, read_blocking and write_blocking appear one turn at a time, as moves of the machines in Signals, Parking, Executor and Stranded, because other tasks run between two turns.
- Rotation.OtherSlicesAreEnoughIff: asks that nobody but the current task is in the middle of a turn, so that the condition can be put in slices; Rotation.WaitsExactly gives the exact wait for any quanta.
- Waiting.WaitIsBounded: flat rings of fixed membership and fewer than 2^32 - 1 ticks; with groups a task's wait also depends on when its group's turn comes, which Windows.NobodyStarves bounds while everybody can run.
- Stranded.NobodyIsStranded: one reader and one writer; every producer's set may come arbitrarily late after its push, and the source's error results are returns to the idle phase.
- Signals.NoLostWakeUp: delivery of a wake, like every sweep in Executor, Sleeping, Parking and Stranded, is assumed to get as far as the waiting task, because the step limit does not guarantee it; Deadlines.WakeReachesExactly and Coverage say when it does.
- Ledger.QuantaBalance: leaves out runs in which the dispatcher reports idle, because an idle kernel goes on draining the path of the task that last ran (src/scheduler.rs:877-880), ticks with no quantum behind them.
- Timeline.RunIsRoundRobin: asks that nobody blocks and no group is empty, because with a blocked task the turn depends on who else can run; what a dispatch does then is the subject of Choice, Handover, Soundness, Conserve, Ledger, Waiting and Rotation.
- Executor.SleepsKeepTime: the futures are joined sleeps; SignalWait and user futures are not modelled.
- `blocked_on_count` (the number `WaitQueue::wake_all` returns), `blocked_threads`, `for_each_task` and `ring::check` are diagnostics or thin wrappers over walks that are modelled.
- `quantum_ticks_for`, `set_slice` and configuration: conversion of requested slices to ticks, with error values only.
- `sync` mutexes and read-write locks: the lock words are not part of this model; only the blocking and waking primitives under them are.
- `src/arch`, the firmware crates, `smp`, `closure`, `hal`, `app_support` and the macros: hardware, placement arithmetic and wrappers.
