/**
  The runner with posts as its jobs: a job completes when, and with what, the
  callbacks of its post report (base/MainThreadRunner.cc with
  AppEngine/AppEngineUrlLoader.cc).
 */
module Transfers {
  import opened Runners
  import Posts = AppEnginePosts

  /** What the loader has to say to one post: the answer to the request, and the callbacks of the reads. */
  datatype Transfer = Transfer(answer: int, events: seq<Posts.Event>)

  predicate Reports(t: Transfer, result: int) {
    Posts.Possible(t.answer, t.events) && Posts.After("", t.answer, t.events).stuffed == [result]
  }

  /** Jobs complete only by reports of their posts. */
  predicate Driven(transfers: map<Ticket, Transfer>, steps: seq<Step>) {
    forall i | 0 <= i < |steps| && steps[i].Complete? ::
      steps[i].e in transfers && Reports(transfers[steps[i].e], steps[i].result)
  }

  lemma ReportsIff(t: Transfer, result: int)
    requires Posts.Possible(t.answer, t.events)
    ensures Reports(t, result) <==> result == 1 && t.answer >= 0 && Posts.Ends(t.events)
  {
    if t.answer >= 0 {
      Posts.JobOutcome("", t.answer, t.events);
    } else {
      Posts.FailedOpenNeverReports("", t.answer, t.events);
    }
  }

  /**
    Once the post in flight could not be opened, or is never told that it is at
    its end, the main thread does nothing any more, and nobody is served.
   */
  lemma StuckPostStopsEverything(s: Runner, steps: seq<Step>, transfers: map<Ticket, Transfer>, e: Ticket)
    requires Inv(s) && s.callback.Idle? && e in s.flying
    requires IsRun(s, steps) && Driven(transfers, steps)
    requires e in transfers ==> transfers[e].answer < 0 || !Posts.Ends(transfers[e].events)
    ensures MainSteps(steps) == 0
    ensures After(s, steps).posted == s.posted && e in After(s, steps).flying
  {
    forall r
      ensures Complete(e, r) !in steps
    {
      if e in transfers && Posts.Possible(transfers[e].answer, transfers[e].events) {
        ReportsIff(transfers[e], r);
      }
    }
    LostJobStopsEverything(s, steps, e);
  }

  predicate GivenByReports(s: Runner, transfers: map<Ticket, Transfer>) {
    forall e | e in s.given :: e in transfers && Reports(transfers[e], s.given[e])
  }

  lemma OnlyCompletionGives(s: Runner, step: Step)
    requires Enabled(s, step)
    ensures Next(s, step).given == if step.Complete? then s.given[step.e := step.result] else s.given
  {
    match step
    case Submit(_) =>
    case Wake(_) =>
    case Fire => DoWorkGivesNothing(s.(timers := s.timers - 1));
    case Complete(e, _) => assert Touch(s, e).given == s.given;
    case Work =>
      assert Touch(s, s.callback.e).given == s.given;
      DoWorkGivesNothing(Touch(s, s.callback.e));
      hide Touch, DoWork;
    case Post =>
      assert Touch(s, s.callback.e).given == s.given;
      hide Touch;
  }

  lemma DoWorkGivesNothing(s: Runner)
    ensures DoWork(s).given == s.given
  {
    if s.queue != [] {
      var t := Touch(s, s.queue[0]);
      assert t.given == s.given;
      hide Touch;
    }
  }

  lemma {:induction false} RunGivesReports(s: Runner, steps: seq<Step>, transfers: map<Ticket, Transfer>)
    requires IsRun(s, steps) && Driven(transfers, steps) && GivenByReports(s, transfers)
    ensures GivenByReports(After(s, steps), transfers)
    decreases |steps|
  {
    if steps != [] {
      OnlyCompletionGives(s, steps[0]);
      hide Next, Enabled, Reports;
      RunGivesReports(Next(s, steps[0]), steps[1..], transfers);
    }
  }

  /**
    A client that has returned was served by a transfer that was opened and has
    ended, and everything received has arrived in its buffer. The result is 1
    whether the transfer ended well or with an error.
   */
  lemma ReturnedMeansTransferred(steps: seq<Step>, transfers: map<Ticket, Transfer>, e: Ticket, dst: seq<char>)
    requires IsRun(START, steps) && Driven(transfers, steps)
    requires e in After(START, steps).clients && After(START, steps).clients[e].Returned?
    ensures After(START, steps).clients[e].result == 1
    ensures e in transfers && transfers[e].answer >= 0 && Posts.Ends(transfers[e].events)
    ensures Posts.After(dst, transfers[e].answer, transfers[e].events).dst == dst + Posts.Body(transfers[e].events)
  {
    RunnerIsSafe(steps);
    RunGivesReports(START, steps, transfers);
    var s := After(START, steps);
    assert ClientAccounted(s, e);
    ReportsIff(transfers[e], s.given[e]);
    Posts.JobOutcome(dst, transfers[e].answer, transfers[e].events);
  }
}
