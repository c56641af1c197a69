/** Runs of an EditorThread: any interleaving of the host's calls and the worker
    threads' steps, and what holds along all of them. */
module EditorThreadRuns {
  import opened EditorThreadSpec

  /** One atomic event.  A worker step names the thread by its launch index; the
      environment decides when each thread moves, whether a sleep ran its full
      length, and whether threadRun threw an `Exception`. */
  datatype Event =
    | StartCall
    | StartWithCall(ms: Int32)
    | StopCall
    | AwakeCall(threshold: Int32)
    | SkipCall
    | SetRunningCall(flag: bool)
    | BeginStep(worker: nat)
    | WakeStep(worker: nat, elapsed: bool)
    | FinishStep(worker: nat, failed: bool)

  predicate IsStart(e: Event)
  {
    e.StartCall? || e.StartWithCall?
  }

  /** The effect of one event.  A worker step for a thread that is not at the
      matching blocking point cannot happen and leaves the state as it is. */
  function Apply(s: Fields, e: Event): (r: Fields)
    ensures |s.workers| <= |r.workers|
    ensures !IsStart(e) ==> |r.workers| == |s.workers|
    ensures !IsStart(e) && !s.run ==> !r.run
  {
    match e
    case StartCall => Start(s)
    case StartWithCall(ms) => StartWith(s, ms)
    case StopCall => Stop(s)
    case AwakeCall(t) => AwakeThread(s, t)
    case SkipCall => Skip(s)
    case SetRunningCall(flag) => SetRunning(s, flag)
    case BeginStep(i) =>
      if i < |s.workers| && s.workers[i].pc.Launched? then Begin(s, i) else s
    case WakeStep(i, elapsed) =>
      if i < |s.workers| && Sleeping(s.workers[i].pc) then Wake(s, i, elapsed) else s
    case FinishStep(i, failed) =>
      if i < |s.workers| && s.workers[i].pc.InWork? then Finish(s, i, failed) else s
  }

  function Run(s: Fields, trace: seq<Event>): Fields
    decreases |trace|
  {
    if trace == [] then s else Run(Apply(s, trace[0]), trace[1..])
  }

  lemma {:induction false} RunAppend(s: Fields, a: seq<Event>, b: seq<Event>)
    ensures Run(s, a + b) == Run(Run(s, a), b)
    decreases |a|
  {
    if a == [] {
      assert a + b == b;
    } else {
      assert (a + b)[1..] == a[1..] + b;
      RunAppend(Apply(s, a[0]), a[1..], b);
    }
  }

  lemma RunCons(s: Fields, e: Event, rest: seq<Event>)
    ensures Run(s, [e] + rest) == Run(Apply(s, e), rest)
  {
    assert ([e] + rest)[1..] == rest;
  }

  lemma RunPair(s: Fields, e1: Event, e2: Event)
    ensures Run(s, [e1, e2]) == Apply(Apply(s, e1), e2)
  {
    assert [e1, e2] == [e1] + [e2];
    RunCons(s, e1, [e2]);
    assert [e2] == [e2] + [];
    RunCons(Apply(s, e1), e2, []);
  }

  lemma RunSnoc(s: Fields, a: seq<Event>, e: Event)
    ensures Run(s, a + [e]) == Apply(Run(s, a), e)
  {
    RunAppend(s, a, [e]);
    RunCons(Run(s, a), e, []);
    assert [e] + [] == [e];
  }

  /** Every event keeps the object invariant, and no thread's counters go down. */
  lemma ApplyKeepsInv(s: Fields, e: Event)
    requires Inv(s)
    ensures Inv(Apply(s, e)) && Grows(s, Apply(s, e))
  {
    match e
    case StartCall =>
      StartKeepsInv(s, MAX_INT);
      assert Start(s) == StartWith(s, MAX_INT);
    case StartWithCall(ms) => StartKeepsInv(s, ms);
    case StopCall => HostCallsKeepInv(s, false, 0);
    case AwakeCall(t) => HostCallsKeepInv(s, false, t);
    case SkipCall => HostCallsKeepInv(s, false, 0);
    case SetRunningCall(flag) => HostCallsKeepInv(s, flag, 0);
    case BeginStep(i) =>
      if i < |s.workers| && s.workers[i].pc.Launched? { BeginKeepsInv(s, i); }
    case WakeStep(i, elapsed) =>
      if i < |s.workers| && Sleeping(s.workers[i].pc) { WakeKeepsInv(s, i, elapsed); }
    case FinishStep(i, failed) =>
      if i < |s.workers| && s.workers[i].pc.InWork? { FinishKeepsInv(s, i, failed); }
  }

  /** The object invariant holds in every reachable state, and counters only grow. */
  lemma {:induction false} RunKeepsInv(s: Fields, trace: seq<Event>)
    requires Inv(s)
    ensures Inv(Run(s, trace)) && Grows(s, Run(s, trace))
    decreases |trace|
  {
    if trace != [] {
      ApplyKeepsInv(s, trace[0]);
      RunKeepsInv(Apply(s, trace[0]), trace[1..]);
    }
  }

  /** Whatever the interleaving and however many awakeThread calls arrive, a thread
      calls threadRun at most once per pass of its loop: the calls it makes are no
      more than the passes it enters, plus the one already under way. */
  lemma WorkAtMostOncePerPass(s: Fields, trace: seq<Event>, i: nat)
    requires Inv(s) && i < |s.workers|
    ensures i < |Run(s, trace).workers|
    ensures Run(s, trace).workers[i].works - s.workers[i].works <=
            Run(s, trace).workers[i].iterations - s.workers[i].iterations + Pending(s.workers[i].pc)
  {
    RunKeepsInv(s, trace);
    var r := Run(s, trace);
    assert WorkerInv(r.workers[i]) && WorkerInv(s.workers[i]) && NoLess(s.workers[i], r.workers[i]);
  }

  /** Once `run` is cleared, no thread calls threadRun again until the next start:
      a sleeping thread breaks out of its loop when it wakes, and one inside
      threadRun leaves the loop when the call returns. */
  lemma {:induction false} NoWorkWhileStopped(s: Fields, trace: seq<Event>)
    requires !s.run
    requires forall k :: 0 <= k < |trace| ==> !IsStart(trace[k])
    ensures !Run(s, trace).run && |Run(s, trace).workers| == |s.workers|
    ensures forall j :: 0 <= j < |s.workers| ==> Run(s, trace).workers[j].works == s.workers[j].works
    decreases |trace|
  {
    if trace != [] {
      var s1 := Apply(s, trace[0]);
      assert forall j :: 0 <= j < |s.workers| ==> s1.workers[j].works == s.workers[j].works;
      NoWorkWhileStopped(s1, trace[1..]);
    }
  }

  /** stop() followed by anything but another start: no further work cycle runs. */
  lemma StopEndsWork(s: Fields, trace: seq<Event>)
    requires Inv(s)
    requires forall k :: 0 <= k < |trace| ==> !IsStart(trace[k])
    ensures |Run(Stop(s), trace).workers| == |s.workers|
    ensures forall j :: 0 <= j < |s.workers| ==> Run(Stop(s), trace).workers[j].works == s.workers[j].works
  {
    NoWorkWhileStopped(Stop(s), trace);
  }

  /** A burst of awakeThread calls, each with the worker `i` woken by it. */
  function Burst(i: nat, ts: seq<Int32>): (r: seq<Event>)
    ensures |r| == 2 * |ts|
  {
    if ts == [] then [] else [AwakeCall(ts[0]), WakeStep(i, false)] + Burst(i, ts[1..])
  }

  /** One awakeThread call with a positive threshold that interrupts the sleeping
      thread: it wakes and sleeps again for the new threshold. */
  lemma AwakeWhileAsleep(s: Fields, i: nat, t: Int32)
    requires i < |s.workers| && i == |s.workers| - 1
    requires s.asleep && Sleeping(s.workers[i].pc) && t > 0
    ensures var r := Run(s, [AwakeCall(t), WakeStep(i, false)]);
      |r.workers| == |s.workers| && r.asleep && r.workers[i].pc.ThresholdSleep? &&
      !r.workers[i].interrupted && r.threshold == t && !r.skip && r.run == s.run &&
      r.workers[i].works == s.workers[i].works && r.workers[i].iterations == s.workers[i].iterations
  {
    var s1 := AwakeThread(s, t);
    assert s1.workers[i] == s.workers[i].(interrupted := true);
    assert Debounces(s1, i, false);
    RunPair(s, AwakeCall(t), WakeStep(i, false));
  }

  /** Debounce: while awakeThread calls with a positive threshold keep interrupting
      the sleeping thread, it goes on sleeping for `threshold` and calls nothing. */
  lemma {:induction false} BurstKeepsSleeping(s: Fields, i: nat, ts: seq<Int32>)
    requires i < |s.workers| && i == |s.workers| - 1
    requires s.asleep && Sleeping(s.workers[i].pc)
    requires forall k :: 0 <= k < |ts| ==> ts[k] > 0
    ensures var r := Run(s, Burst(i, ts));
      |r.workers| == |s.workers| && r.asleep && Sleeping(r.workers[i].pc) &&
      r.workers[i].works == s.workers[i].works && r.workers[i].iterations == s.workers[i].iterations &&
      r.run == s.run &&
      (ts != [] ==> r.threshold == ts[|ts| - 1] && !r.skip && r.workers[i].pc.ThresholdSleep? &&
                    !r.workers[i].interrupted)
    decreases |ts|
  {
    if ts == [] {
      assert Burst(i, ts) == [];
    } else {
      var pair := [AwakeCall(ts[0]), WakeStep(i, false)];
      AwakeWhileAsleep(s, i, ts[0]);
      var s2 := Run(s, pair);
      assert Burst(i, ts) == pair + Burst(i, ts[1..]);
      RunAppend(s, pair, Burst(i, ts[1..]));
      BurstKeepsSleeping(s2, i, ts[1..]);
    }
  }

  /** Debounce coalescing: N >= 1 awakeThread calls that each arrive while the thread
      sleeps, followed by a threshold sleep that runs its full length, cause exactly
      one call of threadRun. */
  lemma BurstWorksOnce(s: Fields, i: nat, ts: seq<Int32>)
    requires i < |s.workers| && i == |s.workers| - 1
    requires s.run && s.asleep && Sleeping(s.workers[i].pc)
    requires ts != [] && forall k :: 0 <= k < |ts| ==> ts[k] > 0
    ensures |Run(s, Burst(i, ts) + [WakeStep(i, true)]).workers| == |s.workers|
    ensures Run(s, Burst(i, ts) + [WakeStep(i, true)]).workers[i].works == s.workers[i].works + 1
    ensures Run(s, Burst(i, ts) + [WakeStep(i, true)]).workers[i].pc.InWork?
  {
    BurstKeepsSleeping(s, i, ts);
    RunAppend(s, Burst(i, ts), [WakeStep(i, true)]);
  }

  /** skip() suppresses exactly one cycle: the next uninterrupted wake consumes the
      flag without calling threadRun, and the cycle after it works as usual. */
  lemma SkipSuppressesOneCycle(s: Fields, i: nat)
    requires i < |s.workers| && s.workers[i].pc.IdleSleep? && !s.workers[i].interrupted
    requires s.run && s.threadSleep >= 0
    ensures var r := Run(s, [SkipCall, WakeStep(i, true)]);
      |r.workers| == |s.workers| && r.workers[i].works == s.workers[i].works &&
      r.workers[i].skips == s.workers[i].skips + 1 && !r.skip && r.workers[i].pc.IdleSleep?
    ensures var r := Run(s, [SkipCall, WakeStep(i, true), WakeStep(i, true)]);
      |r.workers| == |s.workers| && r.workers[i].works == s.workers[i].works + 1 && r.workers[i].pc.InWork?
  {
    var s1 := Skip(s);
    assert !Debounces(s1, i, true);
    var s2 := Wake(s1, i, true);
    assert s2.workers[i].pc.IdleSleep? && !s2.skip && s2.run;
    assert !Debounces(s2, i, true);
    RunPair(s, SkipCall, WakeStep(i, true));
    RunSnoc(s, [SkipCall, WakeStep(i, true)], WakeStep(i, true));
    assert [SkipCall, WakeStep(i, true)] + [WakeStep(i, true)] == [SkipCall, WakeStep(i, true), WakeStep(i, true)];
  }

  /** A threadRun that throws an `Exception` does not end the loop: the thread goes on exactly as if the
      call had succeeded, apart from the failure count. */
  lemma FailureIsolated(s: Fields, i: nat)
    requires i < |s.workers| && s.workers[i].pc.InWork?
    ensures Finish(s, i, true).workers[i] ==
            Finish(s, i, false).workers[i].(failures := s.workers[i].failures + 1)
    ensures Finish(s, i, true).(workers := s.workers) == Finish(s, i, false).(workers := s.workers)
  {
  }

  /** start() twice launches one thread. */
  lemma StartIdempotent(s: Fields)
    ensures Start(Start(s)) == Start(s)
    ensures |Start(Start(s)).workers| == |s.workers| + (if s.run then 0 else 1)
  {
  }

  /** The source lets stop() followed by start() launch a second thread while the first
      is still in its loop: woken by stop()'s interrupt, the first thread finds `run`
      set again and calls threadRun beside the new one. */
  lemma RestartOverlapsOldLoop(s: Fields)
    requires !s.run && !s.skip
    ensures var n := |s.workers|;
            var s4 := Start(Stop(Begin(Start(s), n)));
            |s4.workers| == n + 2 && s4.workers[n].pc.IdleSleep? && s4.workers[n + 1].pc.Launched? &&
            Wake(s4, n, false).run && Wake(s4, n, false).workers[n].pc.InWork? &&
            Wake(s4, n, false).workers[n].works == 1
  {
    var n := |s.workers|;
    var s2 := Begin(Start(s), n);
    assert |s2.workers| == n + 1 && s2.workers[n].pc.IdleSleep? && s2.workers[n].works == 0;
    var s4 := Start(Stop(s2));
    assert s4.workers[n] == s2.workers[n].(interrupted := true) && s4.threshold == 0;
    assert !Debounces(s4, n, false);
  }




}
