# threadpermuter: the search, its pruning and its protocols

`threadpermuter` is a stateless model checker. It lets N threads of a test program make one step at a time, from one
checkpoint to the next, and enumerates the schedules in which they can do so. This project models its core and proves
what the search is for.

| file | what it holds |
|---|---|
| `Sets.dfy`, `BitSets.dfy` | 32-bit thread masks and the finite sets that they stand for |
| `Schedules.dfy` | the schedule tree of a deterministic program: one step, legal schedules, leaves, their lexicographic order, the tree successor, the waiting discipline |
| `Permutations.dfy` | class `Permutation` with `step`, `play`, `complete`, `next` and `program`, in place, against the schedule tree |
| `ThreadPermuters.dfy` | class `ThreadPermuter` with `run` and its loop, with its termination |
| `Exploration.dfy` | whole searches: exhaustive, without duplicates, limited, resumed, ended by a deadlock |
| `Bounds.dfy` | how long schedules can get; what a wait waits for; who finished |
| `History.dfy` | the running, waiting and blocked sets told from the outcomes of the steps alone |
| `Pruning.dfy`, `RetryNeeded.dfy` | when not running blocked threads loses nothing, compared with unrestricted interleavings: the exact condition, a retry condition that is enough, and a program that loses an outcome |
| `FalseDeadlock.dfy` | when a deadlock report is genuine for programs that use `wait` and `notify_all`, and one that is not |
| `PermuteTest.dfy`, `StateChanger.dfy` | two of the repository's programs as instances: the retry condition holds, the search ends, and the assertions hold |
| `Handshake.dfy`, `Threads.dfy` | the protocol between the controller and its threads with spurious wakeups, as a transition system and in place |
| `Calls.dfy` | one call of `step` is one segment of one thread; every segment can be made |
| `Shutdown.dfy` | the calls of `step` that spell a schedule: what they return, that every legal schedule can be spelled, and why the loop that stops the threads ends after a complete one |
| `StreamBuf.dfy` | the lock-free buffer reset protocol, as a transition system and in place |

## How to read it

A program under test is `Program(n, init, exec)`: `exec(s, t)` runs thread `t` from its checkpoint to the next one and
says in which state it paused there; `init` is what `on_permutation_begin` restores, with condition variables on which
nobody waits. A schedule is the sequence of the indices of the threads that made a step (`Word`). `Enabled` is the set
of threads that are running and not blocked; a schedule is `Legal` if every step of it is taken by an enabled thread;
`Maximal` schedules are the leaves of the tree: all threads finished (`Complete`), or those that did not are all
blocked (`Deadlocked`).

`Permutation` computes on masks; `ToSet` is the set that a mask stands for. Its recorded steps end where only one thread
is left running, so the schedule `f` that was played is longer than the record `w`; `RecordedBy(p, w, f)` relates the
two. A deadlock ends the process in the source; here it ends the search with `dead`.

The pruning theorems compare with `Interleaving`: every thread that did not finish may make the next step, blocked or
not. `Pruned` deletes the steps of threads that the scheduler has blocked. For every program, what is left is a legal
schedule with the same state, for all interleavings, if and only if each deleted step would have changed nothing
(`Pruning.PruningExact`). The condition `RetriesStutter` speaks of single steps of the program only and is enough: a thread that
reported `blocking` would only stutter if it were run again, and a plain `blocking` frees nobody. A loop around
`try_lock` meets it (`PermuteTest.MutexRetries`); a `TPB` that is not a retry need not, and `RetryNeeded.OutcomeLost`
shows a skipped step that changes the state and an outcome that the search then misses. That final states are the same
(`Pruning.SameOutcomes`) is stated in one direction only.

`notify_all` leaves the released threads in `m_blocked_threads` until a later step resets it
(`Permutation.cxx:65-77`), and the model does the same. That makes false deadlock reports possible
(`FalseDeadlock.FalseReport`); `FalseDeadlock.GenuineIff` says exactly which reports are genuine.

`UserObj::on_permutation_begin` does not reset `m_state`; the
theorems about it hold for any leftover value. The distinctness of the replaced values, which the test program has, is
not needed.

## Model

| member | source | states |
|---|---|---|
| BitSets.Index2MaskPower | Thread.h:41-44 | For each of the 32 indices, the mask is a power of two: the shift loses nothing |
| BitSets.Singleton | Thread.h:41-44 | `index2mask(i)` stands for the set {i} |
| BitSets.AllBelow | Permutation.cxx:102 | `index2mask(n) - 1` stands for {0, ..., n - 1}, for n < 32 |
| BitSets.Union | Permutation.cxx:91 | Or-ing masks is set union |
| BitSets.Intersect | Permutation.cxx:92 | And-ing masks is set intersection |
| BitSets.Minus | Permutation.cxx:133 | `a & ~b` is set difference |
| BitSets.Xor | Permutation.cxx:212 | `a ^ b` is symmetric difference |
| BitSets.Lssbi | Permutation.cxx:136 | The least significant set bit is the least element of the set |
| BitSets.None | Permutation.cxx:134 | A mask has no bit exactly when its set is empty |
| BitSets.IsSingleBit | Permutation.cxx:131 | A mask is a single bit exactly when its set has one element |
| BitSets.Equal | Permutation.cxx:150 | Masks are equal exactly when their sets are |
| BitSets.HigherMembers | Permutation.cxx:215 | The numeric comparison `hi_rts > thm` holds if and only if the set has a member with a larger index |
| BitSets.NotBelowSet | Permutation.cxx:219 | `hi_rts & ~(thm - 1)` keeps exactly the members that are at least the index |
| BitSets.AnyHigher | Permutation.cxx:215 | The comparison, as `next` uses it |
| BitSets.NotBelow | Permutation.cxx:219 | The masking, as `next` uses it |
| Permutations.MayStep | Permutation.cxx:92 | The mask expression at the end of `step` decides membership in running minus blocked |
| Permutations.HigherChoice | Permutation.cxx:206-222 | The xor, compare, mask, `lssbi` sequence finds the least runnable unblocked index above the given one, or there is none |
| Schedules.LeavesComparable | Permutation.cxx:163-195 | No leaf is a prefix of another: leaves are totally ordered lexicographically |
| Schedules.LeftmostExists | Permutation.cxx:131-154 | When schedules are bounded, always running the lowest thread reaches a leaf from every legal prefix |
| Schedules.LeftmostIsFirst | Permutation.cxx:131-154 | The leaf that `complete` runs into is the least one below the prefix |
| Schedules.LeftmostIsUnique | Permutation.cxx:131-154 | There is only one such leaf |
| Schedules.RunningBackward | Permutation.cxx:82-88 | A step takes at most the stepping thread out of the running set, so adding it back reverses the step |
| Schedules.LeavesAt | Permutation.cxx:202-234 | An allowed leaf after the current one leaves it at a recorded step below the limit that had a higher alternative |
| Schedules.AdvancedIsSuccessor | Permutation.cxx:163-237 | The leftmost leaf below the advanced prefix is the least allowed leaf after the current one: nothing is skipped or repeated |
| Schedules.AdvancedIsLegal | Permutation.cxx:18 | The advanced prefix is legal, so the assertion of `step` cannot fire when it is replayed |
| Schedules.NothingLeft | Permutation.cxx:236 | When no step below the limit has a higher alternative, no allowed leaf is left |
| Schedules.StepDisciplined | Permutation.cxx:21-92 | Each step keeps waiting within blocked within running, nobody woken, and the waiting set the disjoint union of those of the condition variables |
| Schedules.ReachableDisciplined | Permutation.cxx:21-92 | All that holds after every legal schedule |
| Permutations.DecodeEncode | Permutation.cxx:249-253 | Programming the string that a schedule reported gives back that schedule |
| Permutations.TestThreads.Begin | ThreadPermuter.cxx:46 | `on_permutation_begin` restores the initial state |
| Permutations.TestThreads.StepThread | ConditionVariable.cxx:12-18 | A step runs the program, and a step that ends in a wait has put the thread in that condition variable's waiting set, and in no other |
| Permutations.TestThreads.ClearWaitingThreads | ConditionVariable.cxx:47-51 | Empties the waiting set of one condition variable |
| Permutations.SnapshotsPrefix | Permutation.cxx:223-230 | Snapshots only depend on earlier steps, so they stay right when the tail is cut and a step is changed |
| Permutations.TruncatedPrefix | Permutation.cxx:222-230 | The cut and changed record is legal and has its snapshots |
| Permutations.RunningBefore | Permutation.cxx:209-210 | The running set before a recorded step is the one after it plus the stepping thread |
| Permutations.Permutation.Step | Permutation.cxx:11-93 | The masks after `step` stand for the sets of the schedule tree's step, the string grows by the digit, and the result says whether the thread may go on |
| Permutations.Permutation.Record | Permutation.cxx:137-140 | The recorded step has the sets just prior to it as its snapshots |
| Permutations.Permutation.CompleteAllButLast | Permutation.cxx:130-142 | Runs the lowest thread each time and records it, until one thread is left or all are blocked, whichever comes first |
| Permutations.Permutation.CompleteLast | Permutation.cxx:143-156 | Runs the last thread, unrecorded, to the end or to a deadlock, and restores it in the running set |
| Permutations.Permutation.Complete | Permutation.cxx:123-161 | Reaches the leftmost leaf; reports a deadlock exactly if that leaf is deadlocked; the record and the running set are what `next` needs; it terminates |
| Permutations.Permutation.Next | Permutation.cxx:163-237 | True: the record becomes the prefix advanced at its last step below the limit with a higher alternative, with right snapshots and restored sets. False: there is no such step and the record is unchanged |
| Permutations.Permutation.ScanLimited | Permutation.cxx:199-203 | Steps at the limit and beyond are undone, and the running set is rebuilt on the way |
| Permutations.Permutation.ScanBack | Permutation.cxx:204-235 | Finds the last step below the limit that has a higher alternative, and the least such alternative |
| Permutations.Permutation.PutBack | Permutation.cxx:209-210 | The running set is the one that held just prior to the scanned step |
| Permutations.Permutation.ChoiceAt | Permutation.cxx:206-222 | Decides whether a higher thread could have made the step, from the snapshot and the rebuilt running set |
| Permutations.Permutation.Truncate | Permutation.cxx:222-230 | The new record and its snapshots |
| Permutations.Permutation.Play | Permutation.cxx:96-120 | Plays the record and completes it: the string is that of the leftmost leaf, a deadlock is reported exactly if it is one |
| Permutations.Permutation.Replay | Permutation.cxx:101-116 | Every replayed step names an enabled thread, the state is the one of the schedule tree, and the snapshots come out as they were stored |
| Permutations.Permutation.ReplayStep | Permutation.cxx:107-116 | One replayed step |
| Permutations.Permutation.Program | Permutation.cxx:239-254 | The record is the decoded string and everything else is empty |
| ThreadPermuters.ExploredExtend | ThreadPermuter.cxx:43-70 | Adding the successor keeps the list of visited leaves increasing and without gaps |
| ThreadPermuters.PendingVisited | ThreadPermuter.cxx:43-70 | Playing what `next` left behind extends the list by the successor |
| ThreadPermuters.RemainingShrinks | ThreadPermuter.cxx:43-70 | The words that the search did not come to yet get fewer with every turn, so the loop ends |
| ThreadPermuters.ThreadPermuter.constructor | ThreadPermuter.h:32 | The default limit |
| ThreadPermuters.ThreadPermuter.SetLimit | ThreadPermuter.h:23 | Sets the limit |
| ThreadPermuters.ThreadPermuter.Run | ThreadPermuter.cxx:25-87 | Visits, from the leftmost leaf of the programmed prefix on, every allowed leaf in increasing order and reports each string; it stops after the last one or at the first deadlock; a single permutation is played once |
| ThreadPermuters.ThreadPermuter.PlayOne | ThreadPermuter.cxx:45-65 | One permutation is begun, played and reported |
| ThreadPermuters.ThreadPermuter.RunAll | ThreadPermuter.cxx:43-70 | The endless loop, with its termination |
| ThreadPermuters.ThreadPermuter.Turn | ThreadPermuter.cxx:43-70 | One turn of the loop visits the next leaf, and stops exactly when there is none |
| Exploration.VisitedOnce | ThreadPermuter.cxx:43-70 | No schedule is visited twice |
| Exploration.Exhaustive | ThreadPermuter.cxx:43-70 | With the default limit, a search that came to its end visited every complete schedule, in order, and no schedule deadlocks |
| Exploration.LimitedExact | ThreadPermuter.cxx:67-69 | A limited search visits exactly the allowed leaves: those that run the lowest thread from the limit on |
| Exploration.OneLeafPerNode | Permutation.cxx:202-203 | That is exactly one leaf below every node at the depth of the limit |
| Exploration.AllowedByDepth | Permutation.cxx:202-203 | And besides those exactly the leaves that are not deeper |
| Exploration.ResumeExact | ThreadPermuter.cxx:36-70 | From a programmed prefix, exactly its leftmost leaf and the allowed leaves after it |
| Exploration.NextAnswers | Permutation.cxx:197-236 | `next` returns true if and only if an allowed leaf is left, and then leads to the least one |
| Exploration.DeadlockFound | Permutation.cxx:133-151 | A search ends at a deadlock if and only if one of the allowed leaves is deadlocked |
| Exploration.FirstDeadlock | Permutation.cxx:133-151 | The deadlock that ends it is the first in lexicographic order |
| Exploration.RunToEnd | ThreadPermuter.cxx:25-87 | A default run ends in a deadlock if and only if some schedule deadlocks, and else reports every complete schedule once |
| Exploration.ReportsEverySchedule | ThreadPermuter.h:29-30 | The strings passed to `on_permutation_end` are those of the complete schedules, each once, in lexicographic order of the schedules |
| Exploration.RunVerdict | ThreadPermuter.cxx:25-87 | The same, for any run that visited and reported what `Run` says |
| Bounds.LengthByProgress | Permutation.cxx:21-31 | Blocking steps are paid for by other steps: each of these allows one blocking step per thread |
| Bounds.ProgressBound | Permutation.cxx:131-154 | If at most B steps do not report `blocking`, no schedule of N threads is longer than B + N * (B + 1) |
| Bounds.RetryNeedsProgress | Thread.h:74-75 | A thread that reported `blocking`, with progress or not, is not stepped again before another thread has made a step that frees it |
| Bounds.FreedThreads | Thread.h:73-76 | After a yield, a wait or a finish every running thread that does not wait may be next; after `blocking_with_progress` every one but the thread itself |
| Bounds.EnabledDoesNotWait | ConditionVariable.cxx:26 | A thread that may step waits on no condition variable, so the removal at the end of `wait` has nothing to remove |
| Bounds.WaitsUntilNotified | ConditionVariable.cxx:12-18 | A wait lasts while nobody calls `notify_all` on that condition variable |
| Bounds.WaitNeedsNotify | ConditionVariable.cxx:12-51 | A waiting thread is not stepped again before a `notify_all` on its own condition variable |
| Bounds.LastStepFinished | Permutation.cxx:79-84 | A thread that does not run any more made its last step in this schedule, and that step reported `finished` |
| History.RunningHistory | Permutation.cxx:79-84 | A thread is running if and only if no step of it has reported `finished` |
| History.WaitingHistory | Permutation.cxx:65-78 | A thread waits on a condition variable if and only if it has called `wait` on it and nobody has called `notify_all` on it since: a notification releases all |
| History.BlockedHistory | Permutation.cxx:21-91 | A thread is blocked if and only if it has blocked, or called `wait`, and has not been freed since; a waiting thread is only freed by a freeing step after its notification |
| History.NotifyAllReleases | Permutation.cxx:65-77 | `notify_all` releases all that wait on its condition variable and nobody else, and leaves the blocked set as it was |
| Pruning.PrunesWellSnoc | Permutation.cxx:15-31 | One more step of an interleaving keeps its pruned schedule legal and in the same state, if that step stutters in case it is skipped |
| Pruning.PruningExact | Permutation.cxx:15-31 | For every program: all interleavings prune to a legal schedule with the same state if and only if every skipped step would change nothing |
| Pruning.SimulationStep | Permutation.cxx:21-31 | With the retry condition a free step of a blocked thread changes nothing, and after every other one the blocked threads are stuck |
| Pruning.PrunedSimulates | Permutation.cxx:15-31 | With the retry condition, deleting the steps of blocked threads from any interleaving leaves a legal schedule, a subsequence, with the same state |
| Pruning.RetriesAreExact | Thread.h:74-75 | The retry condition is enough for the exact one |
| Pruning.LegalIsInterleaving | README.md:4-6 | A schedule is itself an interleaving with the same state, for every program |
| Pruning.PrunedLegal | Permutation.cxx:18 | There is nothing to delete from a schedule |
| Pruning.SameOutcomes | README.md:4-6 | When skipped steps stutter, complete interleavings and complete schedules have the same final states, for programs with `wait` and `notify_all` too |
| Pruning.NoOutcomeLost | ThreadPermuter.cxx:43-70 | When skipped steps stutter, a search that came to its end has visited, for every complete interleaving, its pruned schedule, with the same final state |
| Pruning.HopelessForever | Permutation.cxx:133-135 | When all running threads only stutter, nothing ever changes |
| Pruning.DeadlockSound | Permutation.cxx:133-151 | After a deadlock report no continuation, pruned or not, changes the state or finishes |
| Pruning.DeadlockComplete | Permutation.cxx:133-151 | Every hopeless state of an interleaving shows up as a deadlocked schedule |
| Pruning.DeadlockIff | Permutation.cxx:133-151 | Some schedule is deadlocked if and only if some interleaving can become hopeless |
| RetryNeeded.OutcomeLost | Thread.h:187-188 | A program with a `TPB` that is not a retry: the step that is skipped after the schedule 0 changes the state, so it meets neither condition, and the search misses an outcome |
| FalseDeadlock.GenuineIff | Permutation.cxx:133-151 | For every program: a deadlock report is genuine, no continuation that respects the waits changing anything, if and only if every running thread that does not wait would change nothing if it were run |
| FalseDeadlock.FalseReport | Permutation.cxx:65-77 | A program with `wait` and `notify_all` for which the schedule 0, 1, 1 is reported as a deadlock, although 0, 1, 1, 0, 1 finishes both threads |
| PermuteTest.MutexRetries | permute_test.cxx:27-76 | Threads that block on a `Mutex` meet the retry condition |
| PermuteTest.NoDeadlock | permute_test.cxx:27-76 | No schedule of the test program deadlocks |
| PermuteTest.TestBounded | permute_test.cxx:27-76 | Its schedules are bounded |
| PermuteTest.FinalValue | permute_test.cxx:21-25 | In every interleaving the result is 0, 4, 9, 10 or 24 |
| PermuteTest.ValueByOrder | permute_test.cxx:27-76 | In every complete interleaving each thread locks the mutex once, and the order in which they do decides the result: 4, 9, 0, 10, 24 or 10 |
| PermuteTest.InOrder | permute_test.cxx:27-76 | Every order occurs, with four steps of each thread |
| PermuteTest.ResultsExact | permute_test.cxx:21-25 | The results are exactly 0, 4, 9, 10 and 24 |
| PermuteTest.OutcomesSeen | permute_test.cxx:91-96 | A search that reported every schedule has seen every outcome of every interleaving |
| PermuteTest.RunTest | permute_test.cxx:78-97 | `tp.run()` comes to its end and has seen every outcome |
| StateChanger.ReplaceWins | StateChanger_test.cxx:195-199 | Calling `replace` makes the thread the one whose value has to win |
| StateChanger.OtherStepKeepsWinning | StateChanger_test.cxx:164-178 | Every other step of any thread keeps that thread winning, although `valid` and the assignment are separate steps |
| StateChanger.AlwaysReached | StateChanger_test.cxx:114-209 | The invariant in every interleaving |
| StateChanger.LastReplacedWins | StateChanger_test.cxx:8-10 | When all threads finished, the final state is the value that was passed to `replace` last, for any number of threads |
| StateChanger.FollowsScript | StateChanger_test.cxx:164-209 | The steps of a thread, counted without those that block, are replace, copy, compare, lock, `valid` and assign; when each of them ends the thread, and that a step only blocks at the lock |
| StateChanger.ThreeFiveOrSix | StateChanger_test.cxx:164-209 | In a complete interleaving a thread makes three steps, five or six: six if it changes the final state, and only if it sets it |
| StateChanger.AloneSixSteps | StateChanger_test.cxx:164-209 | With one thread there is exactly one complete interleaving, of six steps |
| StateChanger.StaleAssignment | StateChanger_test.cxx:169-173 | An interleaving in which another thread replaces the value after `valid` succeeded, and the stale value is still assigned |
| StateChanger.MutexRetries | Thread.h:152-161 | The retry condition |
| StateChanger.NoDeadlock | StateChanger_test.cxx:164-178 | No schedule deadlocks |
| StateChanger.TestBounded | StateChanger_test.cxx:195-209 | Schedules are bounded, for any number of threads |
| StateChanger.EndsAsExpected | StateChanger_test.cxx:188-193 | Every complete schedule passes the assertion of `on_permutation_end` |
| StateChanger.RunTest | StateChanger_test.cxx:243-269 | `tp.run()` comes to its end with every schedule reported and the assertion true after each |
| Handshake.ThreadKeeps | Thread.cxx:31-81 | Every segment of a thread keeps its part of the invariant |
| Handshake.MoveKeeps | Thread.cxx:21-111 | Every segment of the controller keeps it |
| Handshake.NextKeeps | Thread.cxx:21-111 | Every event, spurious wakeups included, keeps the invariant of the whole system |
| Handshake.Reachable | Thread.cxx:21-111 | The invariant holds in every reachable state |
| Handshake.OneAtATime | README.md:4-6 | At most one thread is in test code: the one for which the controller waits, in `step`, or in the join of `stop` |
| Handshake.ReturnsWhatWasPassed | Thread.cxx:64-97 | The values that `step` returned are exactly those passed to `pause`, after the progress upgrade, in order |
| Handshake.ProgressUpgrades | Thread.cxx:66-68 | `blocking` right after progress is passed on as `blocking_with_progress`, right after another pause as `blocking`, and every other state as it is |
| Handshake.NeverStuck | Thread.cxx:21-97 | No wakeup is lost: while the controller is in `start` or `step`, it or its thread can go on without a spurious wakeup |
| Handshake.NextRanks | Thread.cxx:64-111 | All work lowers a rank, and a spurious wakeup raises it by at most two |
| Handshake.JobEnds | Thread.cxx:83-111 | The work done in one call of `step`, or in the loop that stops the threads, is bounded; each spurious wakeup adds two to the bound. With the two rows on being stuck, `step` returns and the loop ends |
| Handshake.Decided | Thread.cxx:99-111 | Once the threads are being stopped, no event changes which of them will leave `run` |
| Handshake.StopsIffFinished | ThreadPermuter.cxx:85-86 | The stop loop can come to its end if and only if the last step of every thread returned `finished` |
| Handshake.StopNeverStuck | Thread.cxx:99-111 | In that case it is never stuck, however the parties are interleaved: every join terminates |
| Handshake.AllGone | Thread.cxx:99-111 | After the loop every thread has left `run` by way of `finished`, with nothing it passed left unreturned |
| Calls.OneSegment | Thread.cxx:83-97 | One call of `step` is one segment: however it is interleaved, no other thread passes anything or has anything returned, and the stepped thread passes exactly one state, the one that the call returns |
| Calls.AnyCall | Thread.cxx:83-97 | Whatever state the next segment of a thread ends in, there is a call of `step` that returns it |
| Calls.TwelveSegments | Thread.cxx:64-97 | Without spurious wakeups, a call of `step` takes exactly twelve segments, after which everybody sleeps again |
| Calls.StartEnds | Thread.cxx:21-29 | Starting the threads can be completed |
| Shutdown.LastOfSteps | Permutation.cxx:79-84 | The last outcome of a finished thread is `finished` |
| Shutdown.ReturnsSpell | Permutation.cxx:20-21 | When what the threads pass to `pause` during the calls of `step` spells a schedule, what the calls return for each thread are the outcomes of its steps |
| Shutdown.LastReturned | Permutation.cxx:21-91 | The last state returned names the outcome of the step, and tells what it did to the thread sets: who was freed, blocked, put to wait or finished |
| Shutdown.CanDrive | Permutation.cxx:20-21 | Every legal schedule can be spelled by calls of `step`, from any state in which the controller is idle |
| Shutdown.StopsAfterComplete | ThreadPermuter.cxx:53-86 | When the calls of `step` have spelled a complete schedule, every thread is paused as `finished`, and the stop loop can come to its end |
| Shutdown.WholeRun | ThreadPermuter.cxx:31-86 | For every complete schedule there is a run from the first `start` to the last join in which the calls of `step` spell it |
| Threads.TestThread.constructor | Thread.cxx:13-19 | The initial members |
| Threads.TestThread.EnterPause | Thread.cxx:64-71 | The head of `pause` in place: upgrade, reset of the progress flag, new state |
| Threads.TestThread.ThreadGo | Thread.cxx:72-81 | The rest of `pause` and the return to `run`, one access at a time |
| Threads.TestThread.Start | Thread.cxx:21-29 | `start`, one access at a time |
| Threads.TestThread.Step | Thread.cxx:83-97 | `step`, one access at a time |
| Threads.TestThread.Stop | Thread.cxx:99-111 | `stop`, one access at a time |
| Threads.Permuter.Proceed | ThreadPermuter.cxx:31-34 | The controller's next move changes the one thread it deals with and no other |
| Threads.Permuter.Perform | Thread.cxx:21-111 | Any event, in place, is the transition of the protocol, or nothing changes |
| Threads.Interleave | Thread.cxx:21-111 | However the parties are interleaved, at most one thread is in test code, and when the controller is done none is left |
| StreamBuf.PutKeepsInv | StreamBufReset_test.cxx:102-154 | Every segment of `write` and `sync` keeps the invariant |
| StreamBuf.GetKeepsInv | StreamBufReset_test.cxx:165-234 | Every segment of `read` keeps the invariant |
| StreamBuf.FifoOrder | StreamBufReset_test.cxx:226-229 | In every interleaving the k-th chunk read is the k-th one written, and no assertion fails |
| StreamBuf.ResetOnlyWhenEmpty | StreamBufReset_test.cxx:105-126 | A reset only happens when everything written was read |
| StreamBuf.UnreadSurvives | StreamBufReset_test.cxx:134-137 | No step overwrites or moves an unread chunk: it keeps its slot, counted from the chunk at the start of the block |
| StreamBuf.NoLostPublication | StreamBufReset_test.cxx:143-154 | Between calls the synced position is published, directly or behind the null pointer, and after `sync` it is the put pointer |
| StreamBuf.ExchangePaid | StreamBufReset_test.cxx:182-205 | The compare-exchange never installs an older position, and every retry is paid for by an increase that the block bounds |
| StreamBuf.FewRetries | StreamBufReset_test.cxx:186-205 | In every interleaving, one call of `read` fails its compare-exchange at most as often as the block has chunks |
| StreamBuf.FullMeansFull | StreamBufReset_test.cxx:127-132 | `write` only gives up when the block is full |
| StreamBuf.EmptyMeansPublished | StreamBufReset_test.cxx:210-225 | `read` only gives up when it found nothing beyond its position, and then it has published that position |
| StreamBuf.GetApproaches | StreamBufReset_test.cxx:165-234 | Each segment of `read` brings the next synced chunk nearer |
| StreamBuf.Drains | StreamBufReset_test.cxx:143-234 | After `sync`, `read` calls alone bring out every chunk |
| StreamBuf.WriterGetsRoom | StreamBufReset_test.cxx:102-141 | After a `sync`, some reads and one call of `write` write a chunk, however full the block was |
| StreamBuf.AlwaysGoesOn | StreamBufReset_test.cxx:102-234 | In every run, between two calls of the put thread, a `sync`, some reads and a `write` go on from there |
| StreamBuf.PutCheckpoints | StreamBufReset_test.cxx:102-154 | How many segments each kind of call of the put thread has: five with a reset, one to three for another chunk, two to four to give up, three or four for a `sync` |
| StreamBuf.GetCheckpoints | StreamBufReset_test.cxx:165-234 | And of the get thread, failed exchanges not counted: two for a chunk, three for nothing, seven with a reset |
| StreamBuf.SharedState.constructor | StreamBufReset_test.cxx:84-91 | The initial members |
| StreamBuf.SharedState.WriteSegment | StreamBufReset_test.cxx:102-141 | `write` in place, one checkpoint to the next |
| StreamBuf.SharedState.SyncSegment | StreamBufReset_test.cxx:143-154 | `sync` in place |
| StreamBuf.SharedState.ReadHere | StreamBufReset_test.cxx:226-233 | The tail of `read` in place |
| StreamBuf.SharedState.ResetSegment | StreamBufReset_test.cxx:176-215 | The reset of the get area and the compare-exchange loop in place |
| StreamBuf.SharedState.Get | StreamBufReset_test.cxx:165-234 | `read` in place, one checkpoint to the next |
| StreamBuf.Interleave | StreamBufReset_test.cxx:300-321 | Any order of segments of the two threads brings out 0, 1, 2, ... |

## Left out

- `notify_one` with waiting threads, the state `woken` and `ConditionVariable::m_was_notify_one`: `Outcome` does not have them, and nothing is claimed about programs that use them. Without waiting threads `notify_one` does not pause (`ConditionVariable.cxx:34`) and so is no step.
- The state `failed` and everything that follows from it: `PermutationFailure`, `Thread::fail`, and the second play of the same permutation with debug output (`ThreadPermuter.cxx:56-62`).
- Debug output, thread names, the `Completed:` counter, and the texts of fatal messages.
- Pruning.DeadlockIff: like `Pruning.DeadlockSound` and `Pruning.DeadlockComplete` it asks for the retry condition, which programs with `wait` or `notify_all` do not meet; for these, `FalseDeadlock.GenuineIff` decides each report.
- Permutations.Permutation.Step: the cases `notify_one`, `woken` and `failed` of the cited lines are not in it, as said above.
- ThreadPermuters.ThreadPermuter.Run: takes fewer than 32 threads (the mask of line 102 is undefined at 32), a non-negative limit, a legal prefix (else the assertion at `Permutation.cxx:18` fires) and a program whose schedules are bounded; starting and stopping the threads is in `Handshake`, `Threads` and `Shutdown`, and playing a failed permutation again is not modelled.
- Exploration.Exhaustive: the schedule lengths have to fit the default limit `INT_MAX`, as the source's `int` index into the record does.
- The members of `utils::BitSet` are modelled by what their callers rely on; that class is not part of this model.
- Shutdown.StopsAfterComplete: that the threads pass to `pause` what the program under test says is what makes them threads of that program (`Drove`); it is stated about `Handshake` and not about the fields of `Permutations.TestThreads`.
- `Thread::m_debug_on`, and the condition variable pointer that travels with a pause, which is a parameter of the outcome.
- StreamBuf.FifoOrder: positions count chunks of 32 bytes in a block of any size, chunk numbers are natural and do not wrap like `output_c`, `TPB` is taken as `TPY`, and more switches are allowed than the source has, at the boundaries between calls; memory is sequentially consistent.
- PermuteTest.FinalValue: `x` is a natural number; the values stay far below the width of `int`.
- `StateChanger_test.cxx` runs the same program four times; one run with any leftover value stands for all.
- `RWLock_test.cxx`, `FuzzyLock_test.cxx` and `bstest.cxx`: their locks and bit sets are not in this repository, or they would add easier relatives of what is here.
