/**
  The main-thread job runner (base/MainThreadRunner.cc) with any number of
  clients. A ticket stands for one call of `RunJob` and the entry on its stack.
  The steps are the critical sections of the code and the places in between
  where other threads can run. Jobs complete asynchronously and once.
 */
module Runners {

  type Ticket = nat

  /** A client is blocked on the semaphore of its entry, or has returned. */
  datatype Client = Waiting | Returned(result: int)

  /** Where the main thread is: between callbacks, or inside `StuffResult` for an entry. */
  datatype Callback = Idle | Stored(e: Ticket) | Worked(e: Ticket)

  datatype Runner = Runner(
    queue: seq<Ticket>,
    timers: nat,
    flying: seq<Ticket>,
    callback: Callback,
    clients: map<Ticket, Client>,
    results: map<Ticket, int>,
    signals: map<Ticket, nat>,
    // what has happened so far
    pushed: seq<Ticket>,
    started: seq<Ticket>,
    posted: seq<Ticket>,
    given: map<Ticket, int>,
    // an entry was used after its owner had returned
    fault: bool)

  datatype Step =
    | Submit(e: Ticket)
    | Wake(e: Ticket)
    | Fire
    | Complete(e: Ticket, result: int)
    | Work
    | Post

  predicate ByMainThread(step: Step) {
    !step.Submit? && !step.Wake?
  }

  /** The timer that the constructor sets is pending. */
  const START := Runner([], 1, [], Idle, map[], map[], map[], [], [], [], map[], false)

  predicate Enabled(s: Runner, step: Step) {
    match step
    case Submit(e) => e !in s.clients
    case Wake(e) => e in s.clients && s.clients[e].Waiting? && e in s.signals && s.signals[e] > 0
    case Fire => s.callback.Idle? && s.timers > 0
    case Complete(e, _) => s.callback.Idle? && e in s.flying
    case Work => s.callback.Stored?
    case Post => s.callback.Worked?
  }

  /** The main thread reads or writes entry `e`. */
  function Touch(s: Runner, e: Ticket): Runner {
    if e in s.clients && s.clients[e].Waiting? then s else s.(fault := true)
  }

  /** `DoWork`: start the first job of the queue, or come back later. */
  function DoWork(s: Runner): Runner {
    if s.queue != [] then
      var e := s.queue[0];
      Touch(s, e).(queue := s.queue[1..], flying := s.flying + [e], started := s.started + [e])
    else s.(timers := s.timers + 1)
  }

  function Remove(es: seq<Ticket>, e: Ticket): seq<Ticket> {
    if es == [] then [] else if es[0] == e then es[1..] else [es[0]] + Remove(es[1..], e)
  }

  function SignalOf(s: Runner, e: Ticket): nat {
    if e in s.signals then s.signals[e] else 0
  }

  function Next(s: Runner, step: Step): Runner
    requires Enabled(s, step)
  {
    match step
    case Submit(e) =>
      s.(clients := s.clients[e := Waiting], signals := s.signals[e := 0],
         queue := s.queue + [e], pushed := s.pushed + [e])
    case Wake(e) =>
      s.(clients := s.clients[e := Returned(if e in s.results then s.results[e] else 0)],
         signals := s.signals[e := s.signals[e] - 1])
    case Fire => DoWork(s.(timers := s.timers - 1))
    case Complete(e, r) =>
      Touch(s, e).(flying := Remove(s.flying, e), results := s.results[e := r], given := s.given[e := r],
                   callback := Stored(e))
    case Work => DoWork(Touch(s, s.callback.e)).(callback := Worked(s.callback.e))
    case Post =>
      var e := s.callback.e;
      Touch(s, e).(signals := s.signals[e := SignalOf(s, e) + 1], posted := s.posted + [e], callback := Idle)
  }

  predicate IsRun(s: Runner, steps: seq<Step>)
    decreases |steps|
  {
    steps == [] || (Enabled(s, steps[0]) && IsRun(Next(s, steps[0]), steps[1..]))
  }

  function After(s: Runner, steps: seq<Step>): Runner
    requires IsRun(s, steps)
    decreases |steps|
  {
    if steps == [] then s else After(Next(s, steps[0]), steps[1..])
  }

  // ------------------------------------------------------------ The invariant

  function Finishing(s: Runner): seq<Ticket> {
    if s.callback.Idle? then [] else [s.callback.e]
  }

  /** The entries that have not been posted, in the order in which they will be. */
  function Unposted(s: Runner): seq<Ticket> {
    Finishing(s) + s.flying + s.queue
  }

  predicate Distinct(es: seq<Ticket>) {
    forall i, j | 0 <= i < j < |es| :: es[i] != es[j]
  }

  /** Something will make the main thread run again: one timer, or one job. */
  predicate OneDriver(s: Runner) {
    s.timers + |s.flying| == if s.callback.Stored? then 0 else 1
  }

  predicate OwnerWaits(s: Runner, e: Ticket) {
    e in s.clients && s.clients[e].Waiting? && e in s.signals && s.signals[e] == 0
  }

  predicate ResultStored(s: Runner, e: Ticket) {
    e in s.given && e in s.results && s.results[e] == s.given[e]
  }

  predicate OwnerServed(s: Runner, e: Ticket) {
    && ResultStored(s, e) && e in s.clients && e in s.signals
    && if s.clients[e].Waiting? then s.signals[e] == 1
       else s.signals[e] == 0 && s.clients[e].result == s.given[e]
  }

  predicate AllWait(s: Runner, es: seq<Ticket>) {
    forall e | e in es :: OwnerWaits(s, e)
  }

  predicate AllServed(s: Runner, es: seq<Ticket>) {
    forall e | e in es :: OwnerServed(s, e)
  }

  predicate Lined(s: Runner) {
    && s.pushed == s.posted + Unposted(s)
    && s.started == s.posted + Finishing(s) + s.flying
    && Distinct(s.pushed)
    && forall e | e in s.clients :: e in s.pushed
  }

  predicate Inv(s: Runner) {
    && !s.fault
    && OneDriver(s)
    && Lined(s)
    && AllWait(s, Unposted(s))
    && AllServed(s, s.posted)
    && (s.callback.Idle? || ResultStored(s, s.callback.e))
  }

  lemma DistinctHalves(a: seq<Ticket>, b: seq<Ticket>)
    requires Distinct(a + b)
    ensures Distinct(a) && Distinct(b)
    ensures forall e | e in a :: e !in b
  {
    var c := a + b;
    forall i, j | 0 <= i < j < |a|
      ensures a[i] != a[j]
    {
      assert c[i] == a[i] && c[j] == a[j];
    }
    forall i, j | 0 <= i < j < |b|
      ensures b[i] != b[j]
    {
      assert c[|a| + i] == b[i] && c[|a| + j] == b[j];
    }
    forall i, j | 0 <= i < |a| && 0 <= j < |b|
      ensures a[i] != b[j]
    {
      assert c[i] == a[i] && c[|a| + j] == b[j];
    }
  }

  /** Nothing about the owner of `e` differs between the two states. */
  predicate SameAt(s: Runner, s': Runner, e: Ticket) {
    && (e in s.clients ==> e in s'.clients && s'.clients[e] == s.clients[e])
    && (e in s.signals ==> e in s'.signals && s'.signals[e] == s.signals[e])
    && (e in s.results ==> e in s'.results && s'.results[e] == s.results[e])
    && (e in s.given ==> e in s'.given && s'.given[e] == s.given[e])
  }

  lemma Carry(s: Runner, s': Runner, es: seq<Ticket>)
    requires forall e | e in es :: SameAt(s, s', e)
    ensures AllWait(s, es) ==> AllWait(s', es)
    ensures AllServed(s, es) ==> AllServed(s', es)
  {
  }

  lemma SubmitKeepsInv(s: Runner, e: Ticket)
    requires Inv(s) && Enabled(s, Submit(e))
    ensures Inv(Next(s, Submit(e)))
  {
    hide AllWait, AllServed, Distinct;
    var s' := Next(s, Submit(e));
    var old', new' := Unposted(s), [e];
    assert Unposted(s') == old' + new';
    assert s'.pushed == s'.posted + Unposted(s');
    AllKnown(s);
    DistinctAppend(s.pushed, e);
    Carry(s, s', s.posted);
    Carry(s, s', old');
    WaitAppend(s', old', e);
  }

  lemma DistinctAppend(es: seq<Ticket>, e: Ticket)
    requires Distinct(es) && e !in es
    ensures Distinct(es + [e])
  {
  }

  lemma WaitAppend(s: Runner, es: seq<Ticket>, e: Ticket)
    requires AllWait(s, es) && OwnerWaits(s, e)
    ensures AllWait(s, es + [e])
  {
  }

  lemma AllKnown(s: Runner)
    requires Inv(s)
    ensures forall e | e in s.pushed :: e in s.clients
  {
    forall e | e in s.pushed
      ensures e in s.clients
    {
      assert e in s.posted || e in Unposted(s);
    }
  }

  /** A client can only be woken by the signal of a posted entry. */
  lemma WokenIsPosted(s: Runner, e: Ticket)
    requires Inv(s) && Enabled(s, Wake(e))
    ensures e in s.posted && OwnerServed(s, e) && e !in Unposted(s)
  {
    hide Distinct;
    assert e in s.posted || e in Unposted(s);
    DistinctHalves(s.posted, Unposted(s));
  }

  lemma ServedOwnerReturns(s: Runner, s': Runner, e: Ticket, es: seq<Ticket>)
    requires AllServed(s, es) && OwnerServed(s', e)
    requires forall x | x in es && x != e :: SameAt(s, s', x)
    ensures AllServed(s', es)
  {
  }

  lemma WakeKeepsInv(s: Runner, e: Ticket)
    requires Inv(s) && Enabled(s, Wake(e))
    ensures Inv(Next(s, Wake(e))) && e in s.posted
  {
    hide AllWait, AllServed, Distinct;
    WokenIsPosted(s, e);
    var s' := Next(s, Wake(e));
    assert Unposted(s') == Unposted(s);
    Carry(s, s', Unposted(s));
    ServedOwnerReturns(s, s', e, s.posted);
  }

  /** `DoWork` with no driver left makes a new one, and starts the first entry that is not yet running. */
  lemma DoWorkKeeps(s: Runner)
    requires s.timers == 0 && s.flying == []
    requires s.queue != [] ==> OwnerWaits(s, s.queue[0])
    ensures var s' := DoWork(s);
            && s'.timers + |s'.flying| == 1 && s'.flying + s'.queue == s.queue
            && s' == s.(queue := s'.queue, flying := s'.flying, timers := s'.timers, started := s.started + s'.flying)
  {
  }

  lemma QueueWaits(s: Runner)
    requires Inv(s) && s.queue != []
    ensures OwnerWaits(s, s.queue[0])
  {
    assert s.queue[0] in Unposted(s);
  }

  /** Between the two states `DoWork` may have moved the first queued entry into flight. */
  predicate Drove(s: Runner, s': Runner) {
    && s' == s.(queue := s'.queue, flying := s'.flying, timers := s'.timers,
                started := s.started + s'.flying, callback := s'.callback)
    && s.flying == [] && s'.timers + |s'.flying| == 1 && s'.flying + s'.queue == s.queue
  }

  lemma FireShape(s: Runner)
    requires Inv(s) && Enabled(s, Fire)
    ensures var s' := Next(s, Fire);
            Drove(s, s') && s'.callback == Idle
  {
    hide AllWait, AllServed, Distinct;
    if s.queue != [] {
      QueueWaits(s);
    }
    DoWorkKeeps(s.(timers := s.timers - 1));
  }

  lemma DrivingKeepsLine(s: Runner, s': Runner)
    requires Lined(s) && Drove(s, s') && Finishing(s') == Finishing(s)
    ensures Lined(s') && Unposted(s') == Unposted(s)
  {
    hide Distinct;
    var front := Finishing(s);
    assert Unposted(s') == front + (s'.flying + s'.queue) == Unposted(s);
    assert s.posted + front + s.flying == s.posted + front;
  }

  lemma FireKeepsInv(s: Runner)
    requires Inv(s) && Enabled(s, Fire)
    ensures Inv(Next(s, Fire)) && Unposted(Next(s, Fire)) == Unposted(s)
  {
    hide AllWait, AllServed, Lined, OwnerWaits, Unposted;
    FireShape(s);
    hide Next;
    var s' := Next(s, Fire);
    DrivingKeepsLine(s, s');
    Carry(s, s', s.posted);
    Carry(s, s', Unposted(s));
  }

  lemma CompleteShape(s: Runner, e: Ticket, r: int)
    requires Inv(s) && Enabled(s, Complete(e, r))
    ensures Next(s, Complete(e, r)) ==
            s.(flying := [], results := s.results[e := r], given := s.given[e := r], callback := Stored(e))
    ensures Unposted(s) == [e] + s.queue && e !in s.posted && s.flying == [e] && s.timers == 0
  {
    assert s.flying == [e];
    assert Unposted(s)[0] == e && OwnerWaits(s, e);
    DistinctHalves(s.posted, Unposted(s));
  }

  lemma CompleteKeepsInv(s: Runner, e: Ticket, r: int)
    requires Inv(s) && Enabled(s, Complete(e, r))
    ensures Inv(Next(s, Complete(e, r))) && Unposted(Next(s, Complete(e, r))) == Unposted(s)
  {
    hide AllWait, AllServed, Distinct;
    CompleteShape(s, e, r);
    hide Next, Touch;
    var s' := Next(s, Complete(e, r));
    assert Unposted(s') == Unposted(s);
    Carry(s, s', s.posted);
    OnlyResultsChange(s, s', Unposted(s));
  }

  lemma OnlyResultsChange(s: Runner, s': Runner, es: seq<Ticket>)
    requires AllWait(s, es) && s'.clients == s.clients && s'.signals == s.signals
    ensures AllWait(s', es)
  {
  }

  lemma FrontWaits(s: Runner)
    requires Inv(s) && !s.callback.Idle?
    ensures s.callback.e in Unposted(s) && OwnerWaits(s, s.callback.e)
  {
    assert Unposted(s)[0] == s.callback.e;
  }

  lemma WorkShape(s: Runner)
    requires Inv(s) && Enabled(s, Work)
    ensures var s' := Next(s, Work);
            Drove(s, s') && s'.callback == Worked(s.callback.e)
  {
    hide AllWait, AllServed, Distinct;
    FrontWaits(s);
    if s.queue != [] {
      QueueWaits(s);
    }
    DoWorkKeeps(s);
  }

  lemma WorkKeepsInv(s: Runner)
    requires Inv(s) && Enabled(s, Work)
    ensures Inv(Next(s, Work)) && Unposted(Next(s, Work)) == Unposted(s)
  {
    hide AllWait, AllServed, Lined, OwnerWaits, Unposted;
    WorkShape(s);
    hide Next;
    var s' := Next(s, Work);
    DrivingKeepsLine(s, s');
    Carry(s, s', s.posted);
    Carry(s, s', Unposted(s));
  }

  lemma PostShape(s: Runner)
    requires Inv(s) && Enabled(s, Post)
    ensures var s', e := Next(s, Post), s.callback.e;
            && s' == s.(signals := s.signals[e := 1], posted := s.posted + [e], callback := Idle)
            && OwnerServed(s', e) && Unposted(s) == [e] + Unposted(s')
  {
    hide AllWait, AllServed, Lined;
    FrontWaits(s);
    var s', e := Next(s, Post), s.callback.e;
    var rest := s.flying + s.queue;
    assert Unposted(s') == rest && Unposted(s) == [e] + rest;
  }

  lemma WaitTail(s: Runner, e: Ticket, es: seq<Ticket>)
    requires AllWait(s, [e] + es)
    ensures AllWait(s, es)
  {
    forall x | x in es
      ensures OwnerWaits(s, x)
    {
      assert x in [e] + es;
    }
  }

  lemma PostKeepsLine(s: Runner)
    requires Inv(s) && Enabled(s, Post)
    ensures Lined(Next(s, Post))
  {
    hide AllWait, AllServed, Distinct, OwnerServed;
    PostShape(s);
    hide Next, Touch;
    var s' := Next(s, Post);
    var front := [s.callback.e];
    assert s'.pushed == s.posted + (front + Unposted(s')) == s'.posted + Unposted(s');
  }

  lemma PostKeepsOwners(s: Runner)
    requires Inv(s) && Enabled(s, Post)
    ensures var s' := Next(s, Post); AllWait(s', Unposted(s')) && AllServed(s', s'.posted)
  {
    hide Touch, AllWait, AllServed, Distinct, OwnerServed, Unposted;
    PostShape(s);
    hide Next;
    var s', e := Next(s, Post), s.callback.e;
    DistinctHalves(s.posted, Unposted(s));
    DistinctHalves([e], Unposted(s'));
    assert [e][0] == e && Unposted(s)[0] == e;
    WaitTail(s, e, Unposted(s'));
    Carry(s, s', s.posted);
    Carry(s, s', Unposted(s'));
    ServedAppend(s', s.posted, e);
  }

  lemma PostKeepsInv(s: Runner)
    requires Inv(s) && Enabled(s, Post)
    ensures Inv(Next(s, Post)) && Unposted(s) == [s.callback.e] + Unposted(Next(s, Post))
  {
    hide AllWait, AllServed, Lined;
    PostKeepsLine(s);
    PostKeepsOwners(s);
    PostShape(s);
  }

  lemma ServedAppend(s: Runner, es: seq<Ticket>, e: Ticket)
    requires AllServed(s, es) && OwnerServed(s, e)
    ensures AllServed(s, es + [e])
  {
  }

  lemma StepKeepsInv(s: Runner, step: Step)
    requires Inv(s) && Enabled(s, step)
    ensures Inv(Next(s, step))
  {
    match step
    case Submit(e) => SubmitKeepsInv(s, e);
    case Wake(e) => WakeKeepsInv(s, e);
    case Fire => FireKeepsInv(s);
    case Complete(e, r) => CompleteKeepsInv(s, e, r);
    case Work => WorkKeepsInv(s);
    case Post => PostKeepsInv(s);
  }

  lemma {:induction false} RunKeepsInv(s: Runner, steps: seq<Step>)
    requires Inv(s) && IsRun(s, steps)
    ensures Inv(After(s, steps))
    decreases |steps|
  {
    if steps != [] {
      StepKeepsInv(s, steps[0]);
      RunKeepsInv(Next(s, steps[0]), steps[1..]);
    }
  }

  /**
    Whatever the clients and the main thread do: no entry is used after its owner
    has returned, jobs are started and posted in the order in which they were
    pushed, every entry is in exactly one place, every client that has returned
    has the result of its own job, and between callbacks there is exactly one
    pending timer or one job in flight.
   */
  lemma RunnerIsSafe(steps: seq<Step>)
    requires IsRun(START, steps)
    ensures var s := After(START, steps);
            && !s.fault
            && s.posted <= s.started <= s.pushed && Distinct(s.pushed)
            && s.pushed == s.posted + Finishing(s) + s.flying + s.queue
            && (s.callback.Idle? ==> s.timers + |s.flying| == 1)
            && (forall e | e in s.clients :: ClientAccounted(s, e))
            && (forall e | e in s.pushed && e !in s.posted :: e in s.clients && s.clients[e].Waiting?)
  {
    RunKeepsInv(START, steps);
    InvIsSafe(After(START, steps));
  }

  /** A client that has returned has its own result; one that waits is signalled as soon as its entry is posted. */
  predicate ClientAccounted(s: Runner, e: Ticket)
    requires e in s.clients
  {
    match s.clients[e]
    case Returned(r) => e in s.posted && e in s.given && r == s.given[e]
    case Waiting => e in s.signals && s.signals[e] == if e in s.posted then 1 else 0
  }

  lemma InvIsSafe(s: Runner)
    requires Inv(s)
    ensures s.posted <= s.started <= s.pushed
    ensures s.pushed == s.posted + Finishing(s) + s.flying + s.queue
    ensures forall e | e in s.clients :: ClientAccounted(s, e)
    ensures forall e | e in s.pushed && e !in s.posted :: e in s.clients && s.clients[e].Waiting?
  {
    assert s.pushed == s.started + s.queue;
    DistinctHalves(s.posted, Unposted(s));
    forall e | e in s.pushed
      ensures (e in s.posted && OwnerServed(s, e)) || (e in Unposted(s) && e !in s.posted && OwnerWaits(s, e))
    {
      assert e in s.posted || e in Unposted(s);
    }
  }

  // ------------------------------------------------------------ Progress

  function IndexOf(es: seq<Ticket>, e: Ticket): (i: nat)
    requires e in es
    ensures i < |es| && es[i] == e
  {
    if es[0] == e then 0 else 1 + IndexOf(es[1..], e)
  }

  /** How far the main thread is with the entry in front. */
  function Phase(s: Runner): nat {
    match s.callback
    case Stored(_) => 2
    case Worked(_) => 1
    case Idle => if s.flying == [] then 4 else 3
  }

  /** An upper bound of the steps the main thread still takes before `e` is posted. */
  function Remaining(s: Runner, e: Ticket): nat
    requires e in Unposted(s)
  {
    4 * IndexOf(Unposted(s), e) + Phase(s)
  }

  lemma {:induction false} IndexOfPrefix(a: seq<Ticket>, b: seq<Ticket>, e: Ticket)
    requires e in a
    ensures IndexOf(a + b, e) == IndexOf(a, e)
    decreases |a|
  {
    if a[0] != e {
      assert (a + b)[1..] == a[1..] + b;
      IndexOfPrefix(a[1..], b, e);
    }
  }

  /** The main thread is never stuck. */
  lemma MainThreadCanStep(s: Runner, r: int) returns (step: Step)
    requires Inv(s)
    ensures ByMainThread(step) && Enabled(s, step)
  {
    step := match s.callback
      case Stored(_) => Work
      case Worked(_) => Post
      case Idle => if s.flying != [] then Complete(s.flying[0], r) else Fire;
  }

  /** Every step of the main thread brings each waiting entry nearer; steps of clients do not set it back. */
  lemma StepsBringNearer(s: Runner, step: Step, e: Ticket)
    requires Inv(s) && Enabled(s, step) && e in Unposted(s)
    ensures var s' := Next(s, step);
            if e in Unposted(s') then
              Remaining(s', e) <= Remaining(s, e) - if ByMainThread(step) then 1 else 0
            else step.Post? && e in s'.posted
  {
    match step
    case Submit(x) =>
      var s' := Next(s, step);
      assert Unposted(s') == Unposted(s) + [x];
      IndexOfPrefix(Unposted(s), [x], e);
    case Wake(x) =>
    case Fire => FireNearer(s);
    case Complete(x, r) => CompleteNearer(s, x, r);
    case Work => WorkNearer(s);
    case Post => PostNearer(s, e);
  }

  lemma FireNearer(s: Runner)
    requires Inv(s) && Enabled(s, Fire)
    ensures var s' := Next(s, Fire); Unposted(s') == Unposted(s) && (s.queue != [] ==> Phase(s') < Phase(s))
  {
    FireKeepsInv(s);
  }

  lemma CompleteNearer(s: Runner, e: Ticket, r: int)
    requires Inv(s) && Enabled(s, Complete(e, r))
    ensures var s' := Next(s, Complete(e, r)); Unposted(s') == Unposted(s) && Phase(s') < Phase(s)
  {
    CompleteKeepsInv(s, e, r);
  }

  lemma WorkNearer(s: Runner)
    requires Inv(s) && Enabled(s, Work)
    ensures var s' := Next(s, Work); Unposted(s') == Unposted(s) && Phase(s') < Phase(s)
  {
    WorkKeepsInv(s);
  }

  lemma PostNearer(s: Runner, e: Ticket)
    requires Inv(s) && Enabled(s, Post) && e in Unposted(s)
    ensures var s' := Next(s, Post);
            if e in Unposted(s') then Remaining(s', e) < Remaining(s, e) else e in s'.posted
  {
    hide AllWait, AllServed, Distinct;
    var s' := Next(s, Post);
    PostShape(s);
    assert Unposted(s)[1..] == Unposted(s');
    if e == s.callback.e {
      PostKeepsInv(s);
      DistinctHalves(s'.posted, Unposted(s'));
      assert e in s'.posted;
    }
  }

  function MainSteps(steps: seq<Step>): nat {
    if steps == [] then 0 else (if ByMainThread(steps[0]) then 1 else 0) + MainSteps(steps[1..])
  }

  /** After as many steps of the main thread as `Remaining` says, the entry has been posted. */
  lemma {:induction false} EventuallyPosted(s: Runner, steps: seq<Step>, e: Ticket)
    requires Inv(s) && IsRun(s, steps) && e in Unposted(s)
    requires MainSteps(steps) >= Remaining(s, e)
    ensures e in After(s, steps).posted
    decreases |steps|
  {
    var s' := Next(s, steps[0]);
    StepKeepsInv(s, steps[0]);
    StepsBringNearer(s, steps[0], e);
    if e in Unposted(s') {
      EventuallyPosted(s', steps[1..], e);
    } else {
      PostedStays(s', steps[1..], e);
    }
  }

  lemma {:induction false} PostedStays(s: Runner, steps: seq<Step>, e: Ticket)
    requires IsRun(s, steps) && e in s.posted
    ensures e in After(s, steps).posted
    decreases |steps|
  {
    if steps != [] {
      NothingIsTakenBack(s, steps[0]);
      hide Next, Enabled;
      PostedStays(Next(s, steps[0]), steps[1..], e);
    }
  }

  lemma NothingIsTakenBack(s: Runner, step: Step)
    requires Enabled(s, step)
    ensures s.posted <= Next(s, step).posted
  {
    match step
    case Submit(_) =>
    case Wake(_) =>
    case Fire => DoWorkPostsNothing(s.(timers := s.timers - 1));
    case Complete(e, _) => assert Touch(s, e).posted == s.posted;
    case Work =>
      assert Touch(s, s.callback.e).posted == s.posted;
      DoWorkPostsNothing(Touch(s, s.callback.e));
      hide Touch, DoWork;
    case Post =>
      assert Touch(s, s.callback.e).posted == s.posted;
      hide Touch;
  }

  lemma DoWorkPostsNothing(s: Runner)
    ensures DoWork(s).posted == s.posted
  {
    if s.queue != [] {
      var t := Touch(s, s.queue[0]);
      assert t.posted == s.posted;
      hide Touch;
    }
  }

  /**
    All of this rests on jobs completing: if the job in flight never does, the
    main thread never does anything again, whatever the clients submit.
   */
  lemma {:induction false} LostJobStopsEverything(s: Runner, steps: seq<Step>, e: Ticket)
    requires Inv(s) && s.callback.Idle? && e in s.flying
    requires IsRun(s, steps) && forall r :: Complete(e, r) !in steps
    ensures MainSteps(steps) == 0
    ensures After(s, steps).posted == s.posted && e in After(s, steps).flying
    decreases |steps|
  {
    if steps != [] {
      assert s.flying == [e];
      var step := steps[0];
      assert step in steps;
      StepKeepsInv(s, step);
      assert forall x | x in steps[1..] :: x in steps;
      LostJobStopsEverything(Next(s, step), steps[1..], e);
    }
  }
}
