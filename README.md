# EditorThread: a debounced periodic worker, modelled in Dafny

ANTLRWorks' `EditorThread` runs a background loop for an editor component.
The host starts it and then signals it with three calls:

- `awakeThread(threshold)` asks for a computation soon;
- `skip()` suppresses the next one;
- `stop()` ends the loop.

The loop sleeps for `threadSleep` milliseconds. Each call of `awakeThread` interrupts that sleep. If `threshold` is positive, the loop keeps sleeping `threshold` milliseconds until one such sleep ends uninterrupted, so a burst of requests is coalesced into one call of the abstract `threadRun()`.

The project has three modules:

- `EditorThreadSpec` (EditorThreadSpec.dfy) holds the object's fields as a value (`Fields`) and every atomic change to them as a function:
  - The host's calls: `SetRunning`, `Start`, `StartWith` (`start(int)`), `Start_`, `Skip`, `ResetSkip`, `Stop`, `AwakeThread`.
  - The worker's steps through `run()`: `Begin`, `Wake` and `Finish`. They are built from `threadSleep(ms)` (split into `SleepEnter` and `SleepLeave`), `LoopHead`, `AfterSleep` and `Exit`.
  - The threads that `start_` launches are a sequence in launch order. Its last element is the thread the `thread` field refers to; the sequence is empty while `thread` is null.
  - Each worker records where it is (`Pc`), its interrupt status, and how many passes of `while(run)` it entered and how each one ended (work, skip or break).
  - The object invariant `Inv` is proved to be kept by every call and step.
- `EditorThreadRuns` (EditorThreadRuns.dfy) lets host calls and worker steps interleave in any order, as a trace of `Event`s applied by `Run`. It proves the properties of whole executions: debouncing, at most one `threadRun` per pass, stop, skip, failure isolation and restart.
- `EditorThreadObject` (EditorThread.dfy) is the object itself: `class EditorThread` with the Java fields, updated in place. Each method is proved to change the fields exactly as its `EditorThreadSpec` function says. The constructor, `SetRunning`, `Start`, `StartWith`, `Skip`, `Stop`, `AwakeThread`, `Begin`, `Wake` and `Finish` are also proved to keep `Valid()` (the invariant). The remaining methods are the pieces those are built from, and on their own they need not keep it: `Exit` on the current thread while `run` is set breaks it.

A worker moves atomically from one blocking point to the next. The blocking points are before `run()` begins, inside either sleep, and inside `threadRun()`. Host calls can come between any two steps. An environment input decides how a sleep ends: `elapsed` says whether its time ran out before a pending interrupt was noticed. A second input, `failed`, says whether `threadRun` threw an `Exception`.

### Restarting can leave two loops running

Nothing in the code keeps the loop to a single thread:

- `stop()` clears `run` and interrupts the thread, but does not wait for it.
- A `start()` that follows before the old thread wakes finds `run` false and launches a second thread.
- The old thread then wakes, finds `run` set again, and keeps looping beside the new one.

`EditorThreadRuns.RestartOverlapsOldLoop` proves that this happens.

Two more edge cases of the code are modelled:

- `stop()` before any `start` throws a NullPointerException after it has cleared `threshold`.
- A negative sleep duration makes `Thread.sleep` throw. The exception escapes `run()` with `asleep` and `running` left set (`Pc.Crashed`). A negative duration can come from `start(n)` with `n < 0`, or from `awakeThread(t)` with `t < 0` during the debounce loop.

## Model

| member | source | states |
|---|---|---|
| EditorThreadSpec.Init | src/org/antlr/works/editor/helper/EditorThread.java:38-44 | the initial fields satisfy the invariant; no thread exists, and run, running, asleep and skip are false |
| EditorThreadSpec.SetRunning | src/org/antlr/works/editor/helper/EditorThread.java:46-48 | running becomes the flag and no other field changes |
| EditorThreadSpec.Start_ | src/org/antlr/works/editor/helper/EditorThread.java:64-70 | afterwards run is set. If run was set nothing changes. Otherwise exactly one fresh, unstarted thread is appended, the earlier threads are untouched and only run changes besides |
| EditorThreadSpec.Start | src/org/antlr/works/editor/helper/EditorThread.java:54-57 | threadSleep becomes Integer.MAX_VALUE; everything else changes as start_ changes it |
| EditorThreadSpec.StartWith | src/org/antlr/works/editor/helper/EditorThread.java:59-62 | threadSleep becomes the argument; everything else changes as start_ changes it |
| EditorThreadSpec.Skip | src/org/antlr/works/editor/helper/EditorThread.java:72-74 | skip becomes true and nothing else changes |
| EditorThreadSpec.ResetSkip | src/org/antlr/works/editor/helper/EditorThread.java:76-78 | skip becomes false and nothing else changes |
| EditorThreadSpec.Interrupt | src/org/antlr/works/editor/helper/EditorThread.java:82 | only the last launched thread gets its interrupt status set; every other thread is unchanged |
| EditorThreadSpec.Stop | src/org/antlr/works/editor/helper/EditorThread.java:80-84 | threshold becomes 0. With no thread, the call throws and nothing else changes. Otherwise the current thread is interrupted, run is cleared and nothing else changes. From any valid state run ends up false |
| EditorThreadSpec.AwakeThread | src/org/antlr/works/editor/helper/EditorThread.java:93-98 | skip is cleared and threshold becomes t. The current thread is interrupted when asleep is set and left alone when it is not. run, running, threadSleep and asleep are unchanged |
| EditorThreadSpec.SleepEnter | src/org/antlr/works/editor/helper/EditorThread.java:106-110 | asleep becomes true and the worker is inside the sleep. A negative duration ends the worker in Crashed instead |
| EditorThreadSpec.SleepLeave | src/org/antlr/works/editor/helper/EditorThread.java:110-116 | asleep is false on return whatever the outcome. The result is true exactly when a pending interrupt ended the sleep, which consumes that interrupt |
| EditorThreadSpec.LoopHead | src/org/antlr/works/editor/helper/EditorThread.java:120-146 | with run set, a new pass begins and the worker enters the idle sleep (Crashed if threadSleep < 0). Otherwise the worker exits and running is cleared |
| EditorThreadSpec.Exit | src/org/antlr/works/editor/helper/EditorThread.java:146 | running is cleared and the worker has left run(); nothing else changes |
| EditorThreadSpec.AfterSleep | src/org/antlr/works/editor/helper/EditorThread.java:131-140 | exactly one of three outcomes: with run clear, break and exit; with skip set, clear it, count a skip and start the next pass; otherwise count one work and enter threadRun, changing no shared field |
| EditorThreadSpec.Begin | src/org/antlr/works/editor/helper/EditorThread.java:118-121 | running is set and the first pass begins with the idle sleep. If run was already cleared, the worker exits with running false. No work is done |
| EditorThreadSpec.Wake | src/org/antlr/works/editor/helper/EditorThread.java:121-140 | threadRun is entered at most once, only when run is set and skip clear, and the pass count matches. An interrupted idle sleep with threshold > 0, or an interrupted threshold sleep, goes straight into another threshold sleep without work. Otherwise the pass ends in exactly one of break, skip or work. running changes only on exit |
| EditorThreadSpec.Finish | src/org/antlr/works/editor/helper/EditorThread.java:139-145 | a threadRun that throws an Exception only adds one to the failure count; the loop test runs next either way, starting a new pass or exiting |
| EditorThreadSpec.SetWorkerKeepsInv | src/org/antlr/works/editor/helper/EditorThread.java:118-147 | replacing one worker by one whose passes are accounted for keeps the object invariant, unless the current thread would then have exited while run is set |
| EditorThreadSpec.LaunchKeepsInv | src/org/antlr/works/editor/helper/EditorThread.java:64-70 | launching a thread when run is clear keeps the invariant |
| EditorThreadSpec.Start_KeepsInv | src/org/antlr/works/editor/helper/EditorThread.java:64-70 | start_ keeps the invariant, removes no thread and lowers no counter |
| EditorThreadSpec.StartKeepsInv | src/org/antlr/works/editor/helper/EditorThread.java:54-62 | start(int), and hence start(), keeps the invariant and lowers no counter |
| EditorThreadSpec.InterruptKeepsInv | src/org/antlr/works/editor/helper/EditorThread.java:80-98 | interrupting the current thread keeps the invariant and lowers no counter |
| EditorThreadSpec.HostCallsKeepInv | src/org/antlr/works/editor/helper/EditorThread.java:46-98 | setRunning, skip, stop and awakeThread keep the invariant and lower no counter. As a consequence, awakeThread never interrupts a null thread |
| EditorThreadSpec.BeginKeepsInv | src/org/antlr/works/editor/helper/EditorThread.java:118-121 | the start of run() keeps the invariant, and the worker's counters do not go down |
| EditorThreadSpec.WakeKeepsInv | src/org/antlr/works/editor/helper/EditorThread.java:121-140 | every way a sleep can end keeps the invariant, and the worker's counters do not go down |
| EditorThreadSpec.FinishKeepsInv | src/org/antlr/works/editor/helper/EditorThread.java:139-146 | the return or failure of threadRun keeps the invariant, and the worker's counters do not go down |
| EditorThreadRuns.Apply | src/org/antlr/works/editor/helper/EditorThread.java:46-147 | one host call or worker step. Only a start launches threads, and only a start sets run |
| EditorThreadRuns.ApplyKeepsInv | src/org/antlr/works/editor/helper/EditorThread.java:46-147 | every host call and every worker step keeps the invariant; threads are never removed and counters never go down |
| EditorThreadRuns.RunKeepsInv | src/org/antlr/works/editor/helper/EditorThread.java:46-147 | every interleaving of calls and steps keeps the invariant and only grows the counters |
| EditorThreadRuns.WorkAtMostOncePerPass | src/org/antlr/works/editor/helper/EditorThread.java:120-140 | in any interleaving, with any number of awakeThread calls, a thread calls threadRun no more often than it enters passes of its loop, plus the one pass already under way |
| EditorThreadRuns.NoWorkWhileStopped | src/org/antlr/works/editor/helper/EditorThread.java:120-146 | with run clear and no start, no thread calls threadRun and run stays clear |
| EditorThreadRuns.StopEndsWork | src/org/antlr/works/editor/helper/EditorThread.java:80-84 | after stop(), no thread calls threadRun again until the next start |
| EditorThreadRuns.AwakeWhileAsleep | src/org/antlr/works/editor/helper/EditorThread.java:93-128 | an awakeThread(t > 0) that interrupts the sleeping thread sends it into a threshold sleep with the interrupt consumed, and it does no work |
| EditorThreadRuns.BurstKeepsSleeping | src/org/antlr/works/editor/helper/EditorThread.java:86-128 | however many awakeThread(t > 0) calls arrive while the thread sleeps, it keeps sleeping in the debounce loop and calls nothing; threshold holds the last t |
| EditorThreadRuns.BurstWorksOnce | src/org/antlr/works/editor/helper/EditorThread.java:121-140 | a burst of N >= 1 requests, followed by a threshold sleep that runs its full length, yields exactly one call of threadRun |
| EditorThreadRuns.SkipSuppressesOneCycle | src/org/antlr/works/editor/helper/EditorThread.java:134-140 | skip() makes the next pass end without threadRun and clears the flag; the pass after it works |
| EditorThreadRuns.FailureIsolated | src/org/antlr/works/editor/helper/EditorThread.java:139-145 | a threadRun that throws an Exception leaves the loop exactly as a successful one would, apart from the failure count |
| EditorThreadRuns.StartIdempotent | src/org/antlr/works/editor/helper/EditorThread.java:54-70 | start() twice is the same as start() once, and launches at most one thread |
| EditorThreadRuns.RestartOverlapsOldLoop | src/org/antlr/works/editor/helper/EditorThread.java:64-140 | after start, the worker's first sleep, stop and start, two threads exist; the old one, woken by stop's interrupt, still calls threadRun |
| EditorThreadObject.EditorThread.constructor | src/org/antlr/works/editor/helper/EditorThread.java:38-44 | the object starts in the initial state, which is valid |
| EditorThreadObject.EditorThread.SetRunning | src/org/antlr/works/editor/helper/EditorThread.java:46-48 | the fields become EditorThreadSpec.SetRunning of the old fields, and validity is kept |
| EditorThreadObject.EditorThread.IsRunning | src/org/antlr/works/editor/helper/EditorThread.java:50-52 | returns the running flag and changes nothing |
| EditorThreadObject.EditorThread.Launch | src/org/antlr/works/editor/helper/EditorThread.java:64-70 | the fields become EditorThreadSpec.Start_ of the old fields |
| EditorThreadObject.EditorThread.Start | src/org/antlr/works/editor/helper/EditorThread.java:54-57 | the fields become EditorThreadSpec.Start of the old fields, and validity is kept |
| EditorThreadObject.EditorThread.StartWith | src/org/antlr/works/editor/helper/EditorThread.java:59-62 | the fields become EditorThreadSpec.StartWith of the old fields, and validity is kept |
| EditorThreadObject.EditorThread.Skip | src/org/antlr/works/editor/helper/EditorThread.java:72-74 | the fields become EditorThreadSpec.Skip of the old fields, and validity is kept |
| EditorThreadObject.EditorThread.ResetSkip | src/org/antlr/works/editor/helper/EditorThread.java:76-78 | the fields become EditorThreadSpec.ResetSkip of the old fields |
| EditorThreadObject.EditorThread.Stop | src/org/antlr/works/editor/helper/EditorThread.java:80-84 | the fields become EditorThreadSpec.Stop of the old fields, run is false afterwards, and the result reports the null-thread exception |
| EditorThreadObject.EditorThread.AwakeThread | src/org/antlr/works/editor/helper/EditorThread.java:93-98 | the fields become EditorThreadSpec.AwakeThread of the old fields, and validity is kept |
| EditorThreadObject.EditorThread.Cancel | src/org/antlr/works/editor/helper/EditorThread.java:100-102 | returns true exactly when run is clear, and changes nothing |
| EditorThreadObject.EditorThread.SleepEnter | src/org/antlr/works/editor/helper/EditorThread.java:106-110 | the fields become EditorThreadSpec.SleepEnter of the old fields |
| EditorThreadObject.EditorThread.SleepLeave | src/org/antlr/works/editor/helper/EditorThread.java:110-116 | the fields and the result are those of EditorThreadSpec.SleepLeave |
| EditorThreadObject.EditorThread.Exit | src/org/antlr/works/editor/helper/EditorThread.java:146 | the fields become EditorThreadSpec.Exit of the old fields |
| EditorThreadObject.EditorThread.LoopHead | src/org/antlr/works/editor/helper/EditorThread.java:120-146 | the fields become EditorThreadSpec.LoopHead of the old fields |
| EditorThreadObject.EditorThread.AfterSleep | src/org/antlr/works/editor/helper/EditorThread.java:131-140 | the fields become EditorThreadSpec.AfterSleep of the old fields |
| EditorThreadObject.EditorThread.Begin | src/org/antlr/works/editor/helper/EditorThread.java:118-121 | the fields become EditorThreadSpec.Begin of the old fields, and validity is kept |
| EditorThreadObject.EditorThread.Wake | src/org/antlr/works/editor/helper/EditorThread.java:121-140 | the fields become EditorThreadSpec.Wake of the old fields, and validity is kept |
| EditorThreadObject.EditorThread.Finish | src/org/antlr/works/editor/helper/EditorThread.java:139-146 | the fields become EditorThreadSpec.Finish of the old fields, and validity is kept |

## Left out

- Thread creation and `Thread.start()` (lines 67-68) are modelled only as appending a `Launched` worker. `Thread.interrupt()` (lines 82, 97) is modelled only as setting that worker's interrupt status. No JVM scheduling is modelled beyond arbitrary interleaving of atomic steps.
- `synchronized` and the unsynchronized reads in `run()`: each host call and each worker step is atomic. Data races that could split a step are not modelled.
- `run()` is not one method with a `while` loop. Its blocking points interleave with host calls, so the loop is split into the steps `Begin`, `Wake` and `Finish`. The traces of `EditorThreadRuns` put those steps back together in any order.
- Wall-clock time and sleep lengths: whether a sleep elapses is an input, so no timing claim is made.
- EditorThreadSpec.SleepLeave: lets a sleep elapse even when an interrupt was already pending. The JVM would end such a sleep at once. The model therefore allows more runs than the JVM does, and every property above holds for the runs the JVM allows too.
- The body of `threadRun()` (line 104) is abstract. It is modelled as one blocking step that returns or throws.
- The console output of a failed `threadRun()` (lines 142-143) is left out.
- The `CancelObject` interface (line 34) is not part of this model; only `cancel()`'s result is.
- `threadSleep(int)` is public (line 106), but the model lets only a worker inside `run()` call it; a host that calls it directly is not modelled. Under that assumption `asleep` is set only by a launched thread, and `HostCallsKeepInv` shows that `awakeThread` never interrupts a null thread.
- The NullPointerException that `awakeThread` raises at line 97 when a host calls `threadSleep` before any `start` and `awakeThread` runs during that sleep is therefore not modelled.
- EditorThreadSpec.Finish: `failed` stands for an `Exception`, which line 141 catches. An `Error` thrown by `threadRun()` (a StackOverflowError, an AssertionError) is not caught: it escapes `run()` and leaves `running` set. That outcome is not modelled, so `EditorThreadRuns.FailureIsolated` holds only for an `Exception`.
- Loop counters (`iterations`, `works`, `skips`, `breaks`, `failures`) are bookkeeping added by the model. They are unbounded naturals; the Java object has no such fields.
