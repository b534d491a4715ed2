/**
  The runner object (base/MainThreadRunner.cc). Each method is a stretch of the
  code during which no other thread can see an intermediate state; `RunJob` and
  `StuffResult` are cut where other threads can run in between. Every method is
  one `Step` of the state machine in `Runners`, and uses an entry only where its
  owner is known to be blocked.
 */
module MainThreadRunners {
  import opened Runners

  lemma ThreeSteps(s: Runner, a: Step, b: Step, c: Step)
    requires Enabled(s, a) && Enabled(Next(s, a), b) && Enabled(Next(Next(s, a), b), c)
    ensures IsRun(s, [a, b, c]) && After(s, [a, b, c]) == Next(Next(Next(s, a), b), c)
  {
    hide Next, Enabled;
    var s1, s2 := Next(s, a), Next(Next(s, a), b);
    assert [a, b, c][1..] == [b, c] && [b, c][1..] == [c] && [c][1..] == [];
    assert IsRun(Next(s2, c), []) && After(Next(s2, c), []) == Next(s2, c);
    assert IsRun(s2, [c]) && After(s2, [c]) == Next(s2, c);
    assert IsRun(s1, [b, c]) && After(s1, [b, c]) == Next(s2, c);
  }

  class MainThreadRunner {
    var jobQueue: seq<Ticket>
    // the fields of the entries: the result and the count of the semaphore
    var results: map<Ticket, int>
    var signals: map<Ticket, nat>
    // callbacks and jobs that the browser holds for the main thread
    ghost var timers: nat
    ghost var flying: seq<Ticket>
    ghost var callback: Callback
    ghost var clients: map<Ticket, Client>
    ghost var pushed: seq<Ticket>
    ghost var started: seq<Ticket>
    ghost var posted: seq<Ticket>
    ghost var given: map<Ticket, int>

    ghost function State(): Runner
      reads this
    {
      Runner(jobQueue, timers, flying, callback, clients, results, signals, pushed, started, posted, given, false)
    }

    constructor ()
      ensures State() == START && Inv(State())
    {
      jobQueue, results, signals := [], map[], map[];
      timers, flying, callback, clients := 1, [], Idle, map[];
      pushed, started, posted, given := [], [], [], map[];
    }

    /** `RunJob` up to the wait: a new entry enters the queue. */
    method Push(e: Ticket)
      requires Inv(State()) && Enabled(State(), Submit(e))
      modifies this
      ensures State() == Next(old(State()), Submit(e)) && Inv(State())
    {
      StepKeepsInv(State(), Submit(e));
      signals := signals[e := 0];
      clients := clients[e := Waiting];
      jobQueue := jobQueue + [e];
      pushed := pushed + [e];
    }

    /** `RunJob` from the wait on: the semaphore has been signalled, and the result is there. */
    method Return(e: Ticket) returns (result: int)
      requires Inv(State()) && Enabled(State(), Wake(e))
      modifies this
      ensures State() == Next(old(State()), Wake(e)) && Inv(State())
      ensures e in given && result == given[e]
    {
      WakeKeepsInv(State(), e);
      signals := signals[e := signals[e] - 1];
      assert OwnerServed(old(State()), e);
      result := results[e];
      clients := clients[e := Returned(result)];
    }

    /** Runs the first job if there is one, and asks to be called again if not. */
    method DoWork()
      requires timers == 0 && flying == [] && (jobQueue != [] ==> OwnerWaits(State(), jobQueue[0]))
      modifies this`jobQueue, this`timers, this`flying, this`started
      ensures State() == Runners.DoWork(old(State()))
    {
      if jobQueue != [] {
        var e := jobQueue[0];
        jobQueue := jobQueue[1..];
        assert OwnerWaits(old(State()), e);
        flying, started := flying + [e], started + [e];
      } else {
        timers := timers + 1;
      }
    }

    /** The timer calls `DoWorkShim`. */
    method DoWorkShim()
      requires Inv(State()) && Enabled(State(), Fire)
      modifies this
      ensures State() == Next(old(State()), Fire) && Inv(State())
    {
      FireShape(State());
      FireKeepsInv(State());
      if jobQueue != [] {
        QueueWaits(State());
      }
      timers := timers - 1;
      DoWork();
    }

    /** `StuffResult` is called with the result of a finished job, and stores it. */
    method StoreResult(e: Ticket, result: int)
      requires Inv(State()) && Enabled(State(), Complete(e, result))
      modifies this
      ensures State() == Next(old(State()), Complete(e, result)) && Inv(State())
    {
      CompleteShape(State(), e, result);
      CompleteKeepsInv(State(), e, result);
      results := results[e := result];
      flying, given, callback := [], given[e := result], Stored(e);
    }

    /** `StuffResult` keeps the main thread going before it wakes the owner. */
    method WorkOn()
      requires Inv(State()) && Enabled(State(), Work)
      modifies this
      ensures State() == Next(old(State()), Work) && Inv(State())
    {
      WorkShape(State());
      WorkKeepsInv(State());
      FrontWaits(State());
      if jobQueue != [] {
        QueueWaits(State());
      }
      DoWork();
      callback := Worked(callback.e);
    }

    /** `StuffResult` wakes the owner, and is done with the entry. */
    method PostDone(e: Ticket)
      requires Inv(State()) && callback == Worked(e)
      modifies this
      ensures State() == Next(old(State()), Post) && Inv(State())
    {
      FrontWaits(State());
      PostShape(State());
      PostKeepsInv(State());
      signals := signals[e := signals[e] + 1];
      posted, callback := posted + [e], Idle;
    }

    /** The whole of `StuffResult`, when no client does anything in the meantime. */
    method StuffResult(e: Ticket, result: int)
      requires Inv(State()) && Enabled(State(), Complete(e, result))
      modifies this
      ensures Inv(State()) && callback.Idle? && e in posted
      ensures var steps := [Complete(e, result), Work, Post];
              IsRun(old(State()), steps) && State() == After(old(State()), steps)
    {
      hide Inv;
      ghost var s0 := State();
      StoreResult(e, result);
      ghost var s1 := State();
      WorkOn();
      ghost var s2 := State();
      assert s2.callback == Worked(e) by { WorkShape(s1); }
      PostDone(e);
      PostShape(s2);
      hide Next;
      ThreeSteps(s0, Complete(e, result), Work, Post);
    }
  }
}
