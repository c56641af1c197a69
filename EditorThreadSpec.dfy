/** The state of one EditorThread (a debounced periodic worker) and every atomic
    change to it, as functions on values.

    The shared fields of the Java object are kept as they are.  The worker
    threads that `start_` launches are kept as a sequence in launch order: its
    length is the number of threads launched, and its last element is the
    thread the `thread` field refers to (the field is null while the sequence
    is empty).  Each worker records where it is in `run()` and how often it
    has gone round its loop.

    A worker moves in atomic steps from one blocking point to the next: it
    blocks before `run()` begins, inside each of the two sleeps, and inside
    `threadRun()`.  The host's calls (start, stop, awakeThread, skip,
    setRunning) are atomic too and may come between any two worker steps. */
module EditorThreadSpec {

  /** Java's `int` range; `Integer.MAX_VALUE` is the idle interval of `start()`. */
  const MIN_INT: int := -0x8000_0000
  const MAX_INT: int := 0x7fff_ffff
  type Int32 = x: int | MIN_INT <= x <= MAX_INT

  /** Where a worker thread is. */
  datatype Pc =
    | Launched        // Thread.start() was called; run() has not begun
    | IdleSleep       // inside threadSleep(threadSleep)
    | ThresholdSleep  // inside threadSleep(threshold), the debounce loop
    | InWork          // inside threadRun()
    | Exited          // run() returned after setRunning(false)
    | Crashed         // Thread.sleep rejected a negative duration; the exception ended run()

  /** One worker thread: its place, its interrupt status and what its loop did so far.
      `iterations` counts the passes into the body of `while(run)`; each pass ends in
      exactly one of `works` (threadRun was called), `skips` (the skip flag was consumed)
      or `breaks` (run was found false after the sleep). */
  datatype Worker = Worker(
    pc: Pc,
    interrupted: bool,
    iterations: nat,
    works: nat,
    skips: nat,
    breaks: nat,
    failures: nat)

  /** The fields of the EditorThread object. */
  datatype Fields = Fields(
    threadSleep: Int32,
    threshold: Int32,
    running: bool,
    run: bool,
    asleep: bool,
    skip: bool,
    workers: seq<Worker>)

  function Last(ws: seq<Worker>): Worker
    requires ws != []
  {
    ws[|ws| - 1]
  }

  /** A thread that was just created and started. */
  function Fresh(): Worker
  {
    Worker(Launched, false, 0, 0, 0, 0, 0)
  }

  predicate Sleeping(pc: Pc)
  {
    pc.IdleSleep? || pc.ThresholdSleep?
  }

  /** 1 while a pass of the loop has begun and not yet ended in work, skip or break. */
  function Pending(pc: Pc): nat
  {
    if pc.IdleSleep? || pc.ThresholdSleep? || pc.Crashed? then 1 else 0
  }

  /** Every pass of the loop that has been entered ends in exactly one outcome. */
  ghost predicate WorkerInv(w: Worker)
  {
    w.iterations == w.works + w.skips + w.breaks + Pending(w.pc) &&
    (w.pc.Launched? ==> w.iterations == 0 && w.failures == 0)
  }

  ghost predicate AllInv(ws: seq<Worker>)
  {
    forall j :: 0 <= j < |ws| ==> WorkerInv(ws[j])
  }

  /** The object invariant.  While `run` is set, the thread `thread` refers to has
      not left its loop; `asleep` is only ever set by a worker, so a thread exists
      whenever it is set (awakeThread never interrupts null). */
  ghost predicate Inv(s: Fields)
  {
    (s.run ==> s.workers != [] && !Last(s.workers).pc.Exited?) &&
    (s.asleep ==> s.workers != []) &&
    AllInv(s.workers)
  }

  /** Loop counters never go down. */
  ghost predicate NoLess(w: Worker, w': Worker)
  {
    w.iterations <= w'.iterations && w.works <= w'.works && w.skips <= w'.skips &&
    w.breaks <= w'.breaks && w.failures <= w'.failures
  }

  /** No thread disappears and no thread's counters go down. */
  ghost predicate Grows(s: Fields, r: Fields)
  {
    |s.workers| <= |r.workers| &&
    forall j :: 0 <= j < |s.workers| ==> NoLess(s.workers[j], r.workers[j])
  }

  /** The state the field initialisers give. */
  function Init(): (r: Fields)
    ensures Inv(r)
    ensures !r.run && !r.running && !r.asleep && !r.skip && r.workers == []
  {
    Fields(100, 0, false, false, false, false, [])
  }

  // ---------------------------------------------------------------------------
  // The host's calls

  function SetRunning(s: Fields, flag: bool): (r: Fields)
    ensures r.running == flag && r.(running := s.running) == s
  {
    s.(running := flag)
  }

  /** `start_`: launch a thread unless `run` is already set. */
  function Start_(s: Fields): (r: Fields)
    ensures r.run
    ensures s.run ==> r == s
    ensures |r.workers| == |s.workers| + (if s.run then 0 else 1)
    ensures forall j :: 0 <= j < |s.workers| ==> r.workers[j] == s.workers[j]
    ensures !s.run ==> Last(r.workers) == Fresh()
    ensures r.(run := s.run, workers := s.workers) == s
  {
    if s.run then s else s.(run := true, workers := s.workers + [Fresh()])
  }

  /** `start()`: sleep "for ever" between cycles unless woken. */
  function Start(s: Fields): (r: Fields)
    ensures r.threadSleep == MAX_INT
    ensures r == Start_(s).(threadSleep := MAX_INT)
  {
    Start_(s.(threadSleep := MAX_INT))
  }

  /** `start(int)`. */
  function StartWith(s: Fields, ms: Int32): (r: Fields)
    ensures r.threadSleep == ms
    ensures r == Start_(s).(threadSleep := ms)
  {
    Start_(s.(threadSleep := ms))
  }

  function Skip(s: Fields): (r: Fields)
    ensures r.skip && r.(skip := s.skip) == s
  {
    s.(skip := true)
  }

  function ResetSkip(s: Fields): (r: Fields)
    ensures !r.skip && r.(skip := s.skip) == s
  {
    s.(skip := false)
  }

  /** `thread.interrupt()`: sets the interrupt status of the last launched thread. */
  function Interrupt(ws: seq<Worker>): (r: seq<Worker>)
    requires ws != []
    ensures |r| == |ws| && forall j :: 0 <= j < |ws| - 1 ==> r[j] == ws[j]
    ensures Last(r) == Last(ws).(interrupted := true)
  {
    ws[|ws| - 1 := Last(ws).(interrupted := true)]
  }

  /** `stop()` dereferences `thread`, which is null before the first start. */
  predicate StopThrows(s: Fields)
  {
    s.workers == []
  }

  /** `stop()`: the threshold is cleared first; with no thread the call then fails
      with a NullPointerException and `run` keeps its value. */
  function Stop(s: Fields): (r: Fields)
    ensures r.threshold == 0
    ensures StopThrows(s) ==> r == s.(threshold := 0)
    ensures !StopThrows(s) ==>
      !r.run && r.workers == Interrupt(s.workers) &&
      r.(threshold := s.threshold, run := s.run, workers := s.workers) == s
    ensures Inv(s) ==> !r.run
  {
    if s.workers == [] then s.(threshold := 0)
    else s.(threshold := 0, workers := Interrupt(s.workers), run := false)
  }

  /** `awakeThread(t)`: a fresh request cancels a pending skip, records the new
      threshold, and interrupts the thread only when a worker is asleep. */
  function AwakeThread(s: Fields, t: Int32): (r: Fields)
    ensures !r.skip && r.threshold == t
    ensures s.asleep && s.workers != [] ==> r.workers == Interrupt(s.workers)
    ensures !s.asleep ==> r.workers == s.workers
    ensures r.run == s.run && r.running == s.running && r.threadSleep == s.threadSleep
    ensures r.asleep == s.asleep
  {
    var t1 := ResetSkip(s).(threshold := t);
    if s.asleep && s.workers != [] then t1.(workers := Interrupt(s.workers)) else t1
  }

  // ---------------------------------------------------------------------------
  // The worker's steps

  function SetWorker(s: Fields, i: nat, w: Worker): (r: Fields)
    requires i < |s.workers|
    ensures |r.workers| == |s.workers| && r.workers[i] == w
    ensures forall j :: 0 <= j < |s.workers| && j != i ==> r.workers[j] == s.workers[j]
    ensures r.(workers := s.workers) == s
  {
    s.(workers := s.workers[i := w])
  }

  /** First half of `threadSleep(ms)`: `asleep` is set and `Thread.sleep` begins,
      or rejects a negative duration, which ends the thread with `asleep` still set. */
  function SleepEnter(s: Fields, i: nat, ms: int, p: Pc): (r: Fields)
    requires i < |s.workers| && Sleeping(p)
    ensures |r.workers| == |s.workers| && r.asleep
    ensures r.workers[i].pc == (if ms < 0 then Crashed else p)
    ensures r == SetWorker(s, i, s.workers[i].(pc := r.workers[i].pc)).(asleep := true)
  {
    SetWorker(s, i, s.workers[i].(pc := if ms < 0 then Crashed else p)).(asleep := true)
  }

  /** Second half of `threadSleep(ms)`: the sleep ends, `asleep` is cleared whatever
      the outcome, and the result says whether an interrupt ended it.  An interrupt
      is pending only if one was issued; `elapsed` says whether the time ran out
      first, in which case the interrupt stays pending for the next sleep. */
  function SleepLeave(s: Fields, i: nat, elapsed: bool): (r: (Fields, bool))
    requires i < |s.workers|
    ensures !r.0.asleep
    ensures r.1 <==> s.workers[i].interrupted && !elapsed
    ensures r.0 == SetWorker(s, i, s.workers[i].(interrupted := s.workers[i].interrupted && !r.1)).(asleep := false)
  {
    var w := s.workers[i];
    var interrupted := w.interrupted && !elapsed;
    (SetWorker(s, i, w.(interrupted := w.interrupted && !interrupted)).(asleep := false), interrupted)
  }

  /** The loop test `while(run)`: enter the next pass with the idle sleep, or leave
      the loop and clear `running`. */
  function LoopHead(s: Fields, i: nat): (r: Fields)
    requires i < |s.workers|
    ensures |r.workers| == |s.workers| && forall j :: 0 <= j < |s.workers| && j != i ==> r.workers[j] == s.workers[j]
    ensures r.run == s.run && r.threshold == s.threshold && r.threadSleep == s.threadSleep && r.skip == s.skip
    ensures s.run ==>
      r.running == s.running && r.asleep &&
      r.workers[i] == s.workers[i].(iterations := s.workers[i].iterations + 1,
                                    pc := if s.threadSleep < 0 then Crashed else IdleSleep)
    ensures !s.run ==> !r.running && r.asleep == s.asleep && r.workers[i] == s.workers[i].(pc := Exited)
  {
    var w := s.workers[i];
    if s.run then SleepEnter(SetWorker(s, i, w.(iterations := w.iterations + 1)), i, s.threadSleep, IdleSleep)
    else Exit(s, i)
  }

  /** `setRunning(false)` after the loop; run() returns. */
  function Exit(s: Fields, i: nat): (r: Fields)
    requires i < |s.workers|
    ensures |r.workers| == |s.workers| && forall j :: 0 <= j < |s.workers| && j != i ==> r.workers[j] == s.workers[j]
    ensures r == s.(running := false, workers := r.workers) && r.workers[i] == s.workers[i].(pc := Exited)
  {
    SetWorker(s, i, s.workers[i].(pc := Exited)).(running := false)
  }

  /** After the sleep: break if `run` is cleared, else consume a skip, else call threadRun. */
  function AfterSleep(s: Fields, i: nat): (r: Fields)
    requires i < |s.workers| && Sleeping(s.workers[i].pc)
    ensures |r.workers| == |s.workers| && forall j :: 0 <= j < |s.workers| && j != i ==> r.workers[j] == s.workers[j]
    ensures r.run == s.run && r.threshold == s.threshold && r.threadSleep == s.threadSleep
    ensures !s.run ==>
      r == s.(running := false, workers := r.workers) &&
      r.workers[i] == s.workers[i].(breaks := s.workers[i].breaks + 1, pc := Exited)
    ensures s.run && s.skip ==>
      !r.skip && r.asleep && r.running == s.running &&
      r.workers[i] == s.workers[i].(skips := s.workers[i].skips + 1, iterations := s.workers[i].iterations + 1,
                                    pc := if s.threadSleep < 0 then Crashed else IdleSleep)
    ensures s.run && !s.skip ==>
      r == s.(workers := r.workers) &&
      r.workers[i] == s.workers[i].(works := s.workers[i].works + 1, pc := InWork)
  {
    var w := s.workers[i];
    if !s.run then Exit(SetWorker(s, i, w.(breaks := w.breaks + 1)), i)
    else if s.skip then LoopHead(SetWorker(ResetSkip(s), i, w.(skips := w.skips + 1)), i)
    else SetWorker(s, i, w.(works := w.works + 1, pc := InWork))
  }

  /** run() begins: `setRunning(true)`, then the loop test. */
  function Begin(s: Fields, i: nat): (r: Fields)
    requires i < |s.workers| && s.workers[i].pc.Launched?
    ensures |r.workers| == |s.workers| && forall j :: 0 <= j < |s.workers| && j != i ==> r.workers[j] == s.workers[j]
    ensures s.run ==> r.running && r.asleep && r.workers[i].iterations == s.workers[i].iterations + 1 &&
                      r.workers[i].pc == (if s.threadSleep < 0 then Crashed else IdleSleep)
    ensures !s.run ==> !r.running && r.workers[i].pc.Exited? && r.workers[i].iterations == s.workers[i].iterations
    ensures r.workers[i].works == s.workers[i].works
    ensures r.run == s.run && r.threshold == s.threshold && r.threadSleep == s.threadSleep && r.skip == s.skip
  {
    LoopHead(SetRunning(s, true), i)
  }

  /** Is the sleep that just ended followed by another `threshold` sleep?  Yes when it
      was interrupted and it was either a threshold sleep already (the inner loop
      re-sleeps while interrupted) or the idle sleep with `threshold > 0`. */
  predicate Debounces(s: Fields, i: nat, elapsed: bool)
    requires i < |s.workers|
  {
    s.workers[i].interrupted && !elapsed && (s.workers[i].pc.ThresholdSleep? || s.threshold > 0)
  }

  /** A sleeping worker wakes up and runs to its next blocking point. */
  function Wake(s: Fields, i: nat, elapsed: bool): (r: Fields)
    requires i < |s.workers| && Sleeping(s.workers[i].pc)
    ensures |r.workers| == |s.workers| && forall j :: 0 <= j < |s.workers| && j != i ==> r.workers[j] == s.workers[j]
    ensures r.run == s.run && r.threshold == s.threshold && r.threadSleep == s.threadSleep
    // threadRun is called at most once, and only when the worker ends up inside it
    ensures r.workers[i].works == s.workers[i].works + (if r.workers[i].pc.InWork? then 1 else 0)
    ensures r.workers[i].iterations == s.workers[i].iterations + (if r.workers[i].pc.InWork? || r.workers[i].pc.Exited? || Debounces(s, i, elapsed) then 0 else 1)
    // an interrupted sleep is followed by another threshold sleep; no work is done
    ensures Debounces(s, i, elapsed) ==>
      r.asleep && r.skip == s.skip && r.running == s.running &&
      r.workers[i].pc == (if s.threshold < 0 then Crashed else ThresholdSleep) &&
      !r.workers[i].interrupted
    // otherwise exactly one of: break, skip, work
    ensures !Debounces(s, i, elapsed) && !s.run ==>
      r.workers[i].pc.Exited? && !r.running && r.workers[i].breaks == s.workers[i].breaks + 1
    ensures !Debounces(s, i, elapsed) && s.run && s.skip ==>
      !r.skip && r.asleep && r.running == s.running && r.workers[i].skips == s.workers[i].skips + 1 &&
      r.workers[i].pc == (if s.threadSleep < 0 then Crashed else IdleSleep)
    ensures !Debounces(s, i, elapsed) && s.run && !s.skip ==>
      r.workers[i].pc.InWork? && !r.asleep && r.running == s.running && r.skip == s.skip
    ensures r.workers[i].pc.InWork? ==> s.run && !s.skip
    ensures r.running != s.running ==> r.workers[i].pc.Exited? && !r.running
  {
    var t := SleepLeave(s, i, elapsed).0;
    if SleepLeave(s, i, elapsed).1 && (s.workers[i].pc.ThresholdSleep? || t.threshold > 0) then
      SleepEnter(t, i, t.threshold, ThresholdSleep)
    else
      AfterSleep(t, i)
  }

  /** threadRun() returns, normally or with an `Exception` that is caught and
      reported; either way the loop goes on with its test.  An `Error` escapes the
      catch clause and is not modelled. */
  function Finish(s: Fields, i: nat, failed: bool): (r: Fields)
    requires i < |s.workers| && s.workers[i].pc.InWork?
    ensures |r.workers| == |s.workers| && forall j :: 0 <= j < |s.workers| && j != i ==> r.workers[j] == s.workers[j]
    ensures r.run == s.run && r.threshold == s.threshold && r.threadSleep == s.threadSleep && r.skip == s.skip
    ensures r.workers[i].works == s.workers[i].works
    ensures r.workers[i].failures == s.workers[i].failures + (if failed then 1 else 0)
    ensures s.run ==> r.running == s.running && r.asleep && r.workers[i].iterations == s.workers[i].iterations + 1 &&
                      r.workers[i].pc == (if s.threadSleep < 0 then Crashed else IdleSleep)
    ensures !s.run ==> !r.running && r.workers[i].pc.Exited?
  {
    var w := s.workers[i];
    LoopHead(SetWorker(s, i, w.(failures := w.failures + if failed then 1 else 0)), i)
  }

  // ---------------------------------------------------------------------------
  // The object invariant is kept by every call and every step

  lemma SetWorkerKeepsInv(s: Fields, i: nat, w: Worker)
    requires Inv(s) && i < |s.workers| && WorkerInv(w)
    requires s.run && i == |s.workers| - 1 ==> !w.pc.Exited?
    ensures Inv(SetWorker(s, i, w))
  {
  }

  lemma AppendKeepsAllInv(ws: seq<Worker>, w: Worker)
    requires AllInv(ws) && WorkerInv(w)
    ensures AllInv(ws + [w])
  {
    var r := ws + [w];
    forall j | 0 <= j < |r|
      ensures WorkerInv(r[j])
    {
      if j < |ws| {
        assert r[j] == ws[j];
      }
    }
  }

  /** Launching appends a fresh thread and sets `run`, which that thread makes good. */
  lemma LaunchShape(s: Fields)
    requires !s.run
    ensures Start_(s).workers == s.workers + [Fresh()]
    ensures Start_(s).workers != [] && !Last(Start_(s).workers).pc.Exited?
  {
  }

  lemma LaunchKeepsInv(s: Fields)
    requires Inv(s) && !s.run
    ensures Inv(Start_(s))
  {
    AppendKeepsAllInv(s.workers, Fresh());
    LaunchShape(s);
  }

  lemma Start_KeepsInv(s: Fields)
    requires Inv(s)
    ensures Inv(Start_(s)) && Grows(s, Start_(s))
  {
    if !s.run {
      LaunchKeepsInv(s);
    }
  }

  /** `start()` and `start(int)` set the interval and then call `start_`. */
  lemma StartKeepsInv(s: Fields, ms: Int32)
    requires Inv(s)
    ensures Inv(StartWith(s, ms)) && Grows(s, StartWith(s, ms))
  {
    var s' := s.(threadSleep := ms);
    assert s'.workers == s.workers && s'.run == s.run && s'.asleep == s.asleep;
    Start_KeepsInv(s');
  }

  lemma InterruptKeepsInv(s: Fields, r: Fields)
    requires Inv(s) && s.workers != [] && r.workers == Interrupt(s.workers)
    requires r.run ==> s.run
    requires r.asleep ==> s.asleep
    ensures Inv(r) && Grows(s, r)
  {
    assert forall j :: 0 <= j < |s.workers| ==> r.workers[j].(interrupted := false) == s.workers[j].(interrupted := false);
  }

  lemma HostCallsKeepInv(s: Fields, flag: bool, t: Int32)
    requires Inv(s)
    ensures Inv(SetRunning(s, flag)) && Grows(s, SetRunning(s, flag))
    ensures Inv(Skip(s)) && Grows(s, Skip(s))
    ensures Inv(Stop(s)) && Grows(s, Stop(s))
    ensures Inv(AwakeThread(s, t)) && Grows(s, AwakeThread(s, t))
  {
    if s.workers != [] {
      InterruptKeepsInv(s, Stop(s));
      if s.asleep {
        InterruptKeepsInv(s, AwakeThread(s, t));
      }
    }
  }

  lemma BeginKeepsInv(s: Fields, i: nat)
    requires Inv(s) && i < |s.workers| && s.workers[i].pc.Launched?
    ensures Inv(Begin(s, i)) && NoLess(s.workers[i], Begin(s, i).workers[i])
  {
    var s1 := SetRunning(s, true);
    var r := Begin(s, i);
    SetWorkerKeepsInv(s1, i, r.workers[i]);
    assert r == SetWorker(s1, i, r.workers[i]).(asleep := r.asleep, running := r.running);
  }

  lemma WakeKeepsInv(s: Fields, i: nat, elapsed: bool)
    requires Inv(s) && i < |s.workers| && Sleeping(s.workers[i].pc)
    ensures Inv(Wake(s, i, elapsed)) && NoLess(s.workers[i], Wake(s, i, elapsed).workers[i])
  {
    var r := Wake(s, i, elapsed);
    SetWorkerKeepsInv(s, i, r.workers[i]);
    assert r == SetWorker(s, i, r.workers[i]).(asleep := r.asleep, running := r.running, skip := r.skip);
  }

  lemma FinishKeepsInv(s: Fields, i: nat, failed: bool)
    requires Inv(s) && i < |s.workers| && s.workers[i].pc.InWork?
    ensures Inv(Finish(s, i, failed)) && NoLess(s.workers[i], Finish(s, i, failed).workers[i])
  {
    var r := Finish(s, i, failed);
    SetWorkerKeepsInv(s, i, r.workers[i]);
    assert r == SetWorker(s, i, r.workers[i]).(asleep := r.asleep, running := r.running);
  }
}
