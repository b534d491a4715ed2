/**
  One post to the server (AppEngine/AppEngineUrlLoader.cc), driven by the
  callbacks of an asynchronous loader: the state machine, what it leaves behind
  in terms of the whole sequence of callbacks, and the object itself.
 */
module AppEnginePosts {

  /**
    The callback that the loader still owes; `Finished` once the job has
    reported, `Abandoned` when nothing will call it again.
   */
  datatype Owed = Opening | Reading | Finished | Abandoned

  /** What a read callback brings: bytes, a result of zero, or an error. */
  datatype Event = Bytes(bytes: seq<char>) | Zero | Error(code: int)

  datatype Job = Job(didOpen: bool, dst: seq<char>, owed: Owed, stuffed: seq<int>)

  function Fresh(dst: seq<char>): Job {
    Job(false, dst, Opening, [])
  }

  function Opened(j: Job, result: int): Job
    requires j.owed.Opening?
  {
    j.(owed := if result >= 0 then Reading else Abandoned)
  }

  function Heard(j: Job, e: Event): Job
    requires j.owed.Reading?
  {
    match e
    case Bytes(b) => j.(dst := j.dst + b)
    case Zero => if !j.didOpen then j.(didOpen := true) else j.(owed := Finished, stuffed := j.stuffed + [1])
    case Error(_) => j.(owed := Finished, stuffed := j.stuffed + [1])
  }

  /** The loader calls back only while it owes a callback. */
  predicate Possible(answer: int, events: seq<Event>)
    decreases |events|
  {
    events == [] ||
    (var before := events[..|events| - 1];
     Possible(answer, before) && After("", answer, before).owed.Reading?)
  }

  function After(dst: seq<char>, answer: int, events: seq<Event>): Job
    decreases |events|
  {
    if events == [] then Opened(Fresh(dst), answer)
    else
      var j := After(dst, answer, events[..|events| - 1]);
      if j.owed.Reading? then Heard(j, events[|events| - 1]) else j
  }

  function Body(events: seq<Event>): seq<char> {
    if events == [] then []
    else Body(events[..|events| - 1]) + match events[|events| - 1] case Bytes(b) => b case _ => []
  }

  /** The callbacks so far end with an error, or with a zero that is not the first. */
  predicate Ends(events: seq<Event>) {
    events != [] &&
    match events[|events| - 1]
    case Bytes(_) => false
    case Zero => Zero in events[..|events| - 1]
    case Error(_) => true
  }

  /**
    A job whose request was opened finishes exactly at its first error or second
    zero. Until then it has collected precisely the bytes received, in order,
    and it reports once, always with the result 1.
   */
  lemma {:induction false} JobOutcome(dst: seq<char>, answer: int, events: seq<Event>)
    requires answer >= 0 && Possible(answer, events)
    ensures var j := After(dst, answer, events);
            && j.dst == dst + Body(events)
            && (j.didOpen <==> Zero in events)
            && j.owed == (if Ends(events) then Finished else Reading)
            && j.stuffed == if Ends(events) then [1] else []
    decreases |events|
  {
    if events != [] {
      var before, last := events[..|events| - 1], events[|events| - 1];
      assert events == before + [last];
      JobOutcome(dst, answer, before);
      JobOutcome("", answer, before);
    }
  }

  /** Which callback sequences are possible at all: those that had not ended before the last callback. */
  lemma {:induction false} PossibleIff(answer: int, events: seq<Event>)
    requires answer >= 0
    ensures Possible(answer, events) <==> forall k | 0 <= k < |events| :: !Ends(events[..k])
    decreases |events|
  {
    if events != [] {
      var before := events[..|events| - 1];
      PossibleIff(answer, before);
      assert forall k | 0 <= k < |before| :: before[..k] == events[..k];
      if Possible(answer, before) {
        JobOutcome("", answer, before);
      }
    }
  }

  /** A request that could not be opened never reports, and its owner waits for ever. */
  lemma {:induction false} FailedOpenNeverReports(dst: seq<char>, answer: int, events: seq<Event>)
    requires Possible(answer, events)
    ensures answer < 0 ==> events == [] && After(dst, answer, events) == Fresh(dst).(owed := Abandoned)
    decreases |events|
  {
    if events != [] {
      FailedOpenNeverReports("", answer, events[..|events| - 1]);
    }
  }

  const BUFFER_SIZE := 4096

  /** The event that a call `OnRead(result)` stands for, given what the loader left in the buffer. */
  function EventOf(result: int, buffer: seq<char>): Event
    requires result <= |buffer|
  {
    if result > 0 then Bytes(buffer[..result]) else if result == 0 then Zero else Error(result)
  }

  class AppEnginePost {
    var didOpen: bool
    var dst: seq<char>
    const buf: array<char>
    ghost var owed: Owed
    ghost var stuffed: seq<int>

    ghost function State(): Job
      reads this
    {
      Job(didOpen, dst, owed, stuffed)
    }

    constructor (dst: seq<char>)
      ensures State() == Fresh(dst) && buf.Length == 4096 && fresh(buf)
    {
      didOpen, this.dst := false, dst;
      buf := new char[BUFFER_SIZE];
      owed, stuffed := Opening, [];
    }

    method OnOpen(result: int)
      requires owed.Opening?
      modifies this
      ensures State() == Opened(old(State()), result)
      ensures owed == (if result >= 0 then Reading else Abandoned) && stuffed == old(stuffed) && dst == old(dst)
    {
      owed := Abandoned;
      if result >= 0 {
        ReadMore();
      }
    }

    method OnRead(result: int)
      requires owed.Reading? && result <= buf.Length
      modifies this
      ensures State() == Heard(old(State()), EventOf(result, buf[..]))
      ensures dst == old(dst) + if result > 0 then buf[..result] else []
      ensures owed == (if result > 0 || (result == 0 && !old(didOpen)) then Reading else Finished)
      ensures stuffed == old(stuffed) + if owed.Finished? then [1] else []
    {
      owed := Abandoned;
      if result > 0 {
        ProcessBytes(result);
        assert buf[..][..result] == buf[..result];
        ReadMore();
      } else if result == 0 && !didOpen {
        didOpen := true;
        ReadMore();
      } else {
        owed, stuffed := Finished, stuffed + [1];
      }
    }

    /** Asks the loader for more; it answers later. */
    method ReadMore()
      requires owed.Abandoned?
      modifies this`owed
      ensures owed == Reading
    {
      owed := Reading;
    }

    method ProcessBytes(length: nat)
      requires length <= buf.Length
      modifies this`dst
      ensures dst == old(dst) + buf[..length]
    {
      dst := dst + buf[..length];
    }
  }
}
