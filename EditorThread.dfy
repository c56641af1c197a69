/** The EditorThread object itself: its fields are updated in place by the host's
    calls and by the steps of the worker threads it launches.  Every method is
    proved to change the fields exactly as the corresponding function of
    EditorThreadSpec says; the host calls and the three worker steps (Begin,
    Wake, Finish) are also proved to keep the object invariant. */
module EditorThreadObject {
  import opened EditorThreadSpec

  class EditorThread {
    var threadSleep: Int32
    var threshold: Int32
    var running: bool
    var run: bool
    var asleep: bool
    var skip: bool
    /** The threads launched so far; the last one is the one `thread` refers to. */
    var workers: seq<Worker>

    /** The fields as a value. */
    function Snap(): Fields
      reads this
    {
      Fields(threadSleep, threshold, running, run, asleep, skip, workers)
    }

    ghost predicate Valid()
      reads this
    {
      Inv(Snap())
    }

    /** The field initialisers. */
    constructor ()
      ensures Valid() && Snap() == Init()
    {
      threadSleep := 100;
      threshold := 0;
      running := false;
      run := false;
      asleep := false;
      skip := false;
      workers := [];
    }

    method SetRunning(flag: bool)
      requires Valid()
      modifies this
      ensures Valid() && Snap() == EditorThreadSpec.SetRunning(old(Snap()), flag)
    {
      running := flag;
      HostCallsKeepInv(old(Snap()), flag, 0);
    }

    method IsRunning() returns (r: bool)
      ensures r == Snap().running
    {
      r := running;
    }

    /** `start_`, shared by both start methods. */
    method Launch()
      modifies this
      ensures Snap() == Start_(old(Snap()))
    {
      if !run {
        run := true;
        workers := workers + [Fresh()];
      }
    }

    method Start()
      requires Valid()
      modifies this
      ensures Valid() && Snap() == EditorThreadSpec.Start(old(Snap()))
    {
      StartWith(MAX_INT);
    }

    method StartWith(ms: Int32)
      requires Valid()
      modifies this
      ensures Valid() && Snap() == EditorThreadSpec.StartWith(old(Snap()), ms)
    {
      ghost var s0 := Snap();
      threadSleep := ms;
      assert Snap() == s0.(threadSleep := ms);
      Launch();
      assert Snap() == EditorThreadSpec.StartWith(s0, ms);
      StartKeepsInv(s0, ms);
    }

    method Skip()
      requires Valid()
      modifies this
      ensures Valid() && Snap() == EditorThreadSpec.Skip(old(Snap()))
    {
      skip := true;
      HostCallsKeepInv(old(Snap()), false, 0);
    }

    method ResetSkip()
      modifies this
      ensures Snap() == EditorThreadSpec.ResetSkip(old(Snap()))
    {
      skip := false;
    }

    /** `stop()`; `npe` reports the NullPointerException raised when no thread was
        ever started, after `threshold` was already cleared. */
    method Stop() returns (npe: bool)
      requires Valid()
      modifies this
      ensures npe == StopThrows(old(Snap()))
      ensures Valid() && Snap() == EditorThreadSpec.Stop(old(Snap()))
      ensures !run
    {
      threshold := 0;
      if workers == [] {
        npe := true;
      } else {
        npe := false;
        workers := Interrupt(workers);
        run := false;
      }
      HostCallsKeepInv(old(Snap()), false, 0);
    }

    method AwakeThread(t: Int32)
      requires Valid()
      modifies this
      ensures Valid() && Snap() == EditorThreadSpec.AwakeThread(old(Snap()), t)
    {
      ResetSkip();
      threshold := t;
      if asleep && workers != [] {
        workers := Interrupt(workers);
      }
      HostCallsKeepInv(old(Snap()), false, t);
    }

    /** `cancel()`: a long computation in threadRun polls this to give up early. */
    method Cancel() returns (c: bool)
      ensures c <==> !Snap().run
    {
      c := !run;
    }

    // The worker's side.  Each method runs worker `i` from one blocking point to
    // the next.

    method SetWorker(i: nat, w: Worker)
      requires i < |workers|
      modifies this
      ensures Snap() == EditorThreadSpec.SetWorker(old(Snap()), i, w)
    {
      workers := workers[i := w];
    }

    /** The first half of `threadSleep(ms)`. */
    method SleepEnter(i: nat, ms: int, p: Pc)
      requires i < |workers| && Sleeping(p)
      modifies this
      ensures Snap() == EditorThreadSpec.SleepEnter(old(Snap()), i, ms, p)
    {
      asleep := true;
      SetWorker(i, workers[i].(pc := if ms < 0 then Crashed else p));
    }

    /** The second half of `threadSleep(ms)`. */
    method SleepLeave(i: nat, elapsed: bool) returns (interrupted: bool)
      requires i < |workers|
      modifies this
      ensures interrupted == EditorThreadSpec.SleepLeave(old(Snap()), i, elapsed).1
      ensures Snap() == EditorThreadSpec.SleepLeave(old(Snap()), i, elapsed).0
    {
      var w := workers[i];
      interrupted := w.interrupted && !elapsed;
      SetWorker(i, w.(interrupted := w.interrupted && !interrupted));
      asleep := false;
    }

    method Exit(i: nat)
      requires i < |workers|
      modifies this
      ensures Snap() == EditorThreadSpec.Exit(old(Snap()), i)
    {
      SetWorker(i, workers[i].(pc := Exited));
      running := false;
    }

    method LoopHead(i: nat)
      requires i < |workers|
      modifies this
      ensures Snap() == EditorThreadSpec.LoopHead(old(Snap()), i)
    {
      if run {
        SetWorker(i, workers[i].(iterations := workers[i].iterations + 1));
        SleepEnter(i, threadSleep, IdleSleep);
      } else {
        Exit(i);
      }
    }

    method AfterSleep(i: nat)
      requires i < |workers| && Sleeping(workers[i].pc)
      modifies this
      ensures Snap() == EditorThreadSpec.AfterSleep(old(Snap()), i)
    {
      var w := workers[i];
      if !run {
        SetWorker(i, w.(breaks := w.breaks + 1));
        Exit(i);
      } else if skip {
        ResetSkip();
        SetWorker(i, w.(skips := w.skips + 1));
        LoopHead(i);
      } else {
        SetWorker(i, w.(works := w.works + 1, pc := InWork));
      }
    }

    /** run() begins. */
    method Begin(i: nat)
      requires Valid() && i < |workers| && workers[i].pc.Launched?
      modifies this
      ensures Valid() && Snap() == EditorThreadSpec.Begin(old(Snap()), i)
    {
      running := true;
      LoopHead(i);
      BeginKeepsInv(old(Snap()), i);
    }

    /** A sleep of worker `i` ends. */
    method Wake(i: nat, elapsed: bool)
      requires Valid() && i < |workers| && Sleeping(workers[i].pc)
      modifies this
      ensures Valid() && Snap() == EditorThreadSpec.Wake(old(Snap()), i, elapsed)
    {
      var inThreshold := workers[i].pc.ThresholdSleep?;
      var interrupted := SleepLeave(i, elapsed);
      if interrupted && (inThreshold || threshold > 0) {
        SleepEnter(i, threshold, ThresholdSleep);
      } else {
        AfterSleep(i);
      }
      WakeKeepsInv(old(Snap()), i, elapsed);
    }

    /** threadRun() of worker `i` returns or throws. */
    method Finish(i: nat, failed: bool)
      requires Valid() && i < |workers| && workers[i].pc.InWork?
      modifies this
      ensures Valid() && Snap() == EditorThreadSpec.Finish(old(Snap()), i, failed)
    {
      var w := workers[i];
      SetWorker(i, w.(failures := w.failures + if failed then 1 else 0));
      LoopHead(i);
      FinishKeepsInv(old(Snap()), i, failed);
    }
  }
}
