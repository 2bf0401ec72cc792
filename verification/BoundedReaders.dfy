/**
 Three read loops over a descriptor whose reads may come up short in any pattern
 (`_read_exact_bounded` in mmi/source_capture.py, `_read_to_eof_once` in common/stable_read.py,
 `_read_exactly` in cli/weekly_shadow_01_report_publisher_cli.py), and the one specification
 they all meet.
 */
module BoundedReaders {
  import opened Outcomes
  import opened Texts

  const READ_CHUNK_BYTES: nat := 65_536

  /** What the system answers to each call in turn; None is an error. A read never returns more than asked. */
  type Answers = nat -> Option<Bytes>

  function Reply(answers: Answers, at: nat, maximum: nat): (r: Option<Bytes>)
    ensures r.Some? ==> |r.value| <= maximum
  {
    match answers(at)
    case None => None
    case Some(bytes) => Some(if |bytes| <= maximum then bytes else bytes[..maximum])
  }

  /** One read: when, how much was asked for, and the answer. */
  datatype Event = Event(at: nat, requested: nat, reply: Option<Bytes>)

  datatype Gathered = Gathered(next: nat, events: seq<Event>, bytes: Bytes, failed: bool)

  function Least(a: nat, b: nat): nat {
    if a < b then a else b
  }

  // ----- the one specification -----

  /** The bytes of all answers, in order. */
  function Joined(events: seq<Event>): Bytes {
    if events == [] then []
    else
      var last := events[|events| - 1];
      Joined(events[..|events| - 1]) + if last.reply.Some? then last.reply.value else []
  }

  predicate IsEnd(e: Event) {
    e.reply == Some([])
  }

  predicate SawEnd(events: seq<Event>) {
    events != [] && IsEnd(events[|events| - 1])
  }

  predicate Failed(events: seq<Event>) {
    events != [] && events[|events| - 1].reply == None
  }

  /**
   Calls at consecutive times from start; none asks for nothing or for more than a chunk; none
   follows an error or the end of the file; and no more than one byte past the limit is held.
   */
  predicate BoundedRun(events: seq<Event>, start: nat, limit: nat) {
    && (forall i :: 0 <= i < |events| ==>
          && events[i].at == start + i && 1 <= events[i].requested <= READ_CHUNK_BYTES
          && (events[i].reply.Some? ==> |events[i].reply.value| <= events[i].requested))
    && (forall i :: 0 <= i < |events| - 1 ==> events[i].reply.Some? && events[i].reply.value != [])
    && |Joined(events)| <= limit + 1
  }

  /** A reader and its caller's length check succeed on exactly this. */
  predicate ExactlyRead(events: seq<Event>, expected: nat) {
    SawEnd(events) && |Joined(events)| == expected
  }

  lemma JoinedAppend(events: seq<Event>, e: Event)
    ensures Joined(events + [e]) == Joined(events) + if e.reply.Some? then e.reply.value else []
  {
    assert (events + [e])[..|events|] == events;
  }

  // ----- reading up to one byte past a limit -----

  function Gather(answers: Answers, at: nat, limit: nat, events: seq<Event>, bytes: Bytes): Gathered
    requires |bytes| <= limit + 1
    decreases limit + 1 - |bytes|
  {
    if |bytes| == limit + 1 then Gathered(at, events, bytes, false)
    else
      var requested := Least(READ_CHUNK_BYTES, limit + 1 - |bytes|);
      var reply := Reply(answers, at, requested);
      var seen := events + [Event(at, requested, reply)];
      if reply.None? then Gathered(at + 1, seen, bytes, true)
      else if reply.value == [] then Gathered(at + 1, seen, bytes, false)
      else Gather(answers, at + 1, limit, seen, bytes + reply.value)
  }

  /** While every answer so far was some bytes. */
  predicate Underway(events: seq<Event>, start: nat, limit: nat, bytes: Bytes) {
    && BoundedRun(events, start, limit) && Joined(events) == bytes
    && (forall i :: 0 <= i < |events| ==> events[i].reply.Some? && events[i].reply.value != [])
  }

  function Received(e: Event): Bytes {
    if e.reply.Some? then e.reply.value else []
  }

  predicate NextCall(events: seq<Event>, start: nat, e: Event) {
    && e.at == start + |events| && 1 <= e.requested <= READ_CHUNK_BYTES
    && (e.reply.Some? ==> |e.reply.value| <= e.requested)
  }

  lemma OneMore(events: seq<Event>, start: nat, limit: nat, bytes: Bytes, e: Event)
    requires Underway(events, start, limit, bytes) && NextCall(events, start, e) && |bytes + Received(e)| <= limit + 1
    ensures BoundedRun(events + [e], start, limit) && Joined(events + [e]) == bytes + Received(e)
    ensures e.reply.Some? && e.reply.value != [] ==> Underway(events + [e], start, limit, bytes + Received(e))
  {
    JoinedAppend(events, e);
  }

  /** What a gathered run looks like when the loop has stopped. */
  predicate Stopped(g: Gathered, start: nat, limit: nat) {
    && BoundedRun(g.events, start, limit) && Joined(g.events) == g.bytes && g.next == start + |g.events|
    && (g.failed <==> Failed(g.events))
    && (|g.bytes| <= limit && !g.failed ==> SawEnd(g.events))
    && (|g.bytes| == limit + 1 ==> !g.failed && !SawEnd(g.events))
  }

  lemma {:induction false} GatherMeetsSpec(answers: Answers, start: nat, at: nat, limit: nat, events: seq<Event>,
                                           bytes: Bytes)
    requires |bytes| <= limit + 1 && Underway(events, start, limit, bytes) && at == start + |events|
    ensures Stopped(Gather(answers, at, limit, events, bytes), start, limit)
    decreases limit + 1 - |bytes|
  {
    if |bytes| < limit + 1 {
      var requested := Least(READ_CHUNK_BYTES, limit + 1 - |bytes|);
      var e := Event(at, requested, Reply(answers, at, requested));
      OneMore(events, start, limit, bytes, e);
      if e.reply.Some? && e.reply.value != [] {
        GatherMeetsSpec(answers, start, at + 1, limit, events + [e], bytes + e.reply.value);
      } else {
        assert bytes + Received(e) == bytes;
        assert (events + [e])[|events|] == e;
      }
    }
  }

  datatype ReadFailure = Unreadable | OverlongRead | ShortRead

  /** The capture reader's outcome: exactly the expected number of bytes, or why not. */
  function ExactOutcome(g: Gathered, expected: nat): Result<Bytes, ReadFailure> {
    if g.failed then Err(Unreadable)
    else if |g.bytes| > expected then Err(OverlongRead)
    else if |g.bytes| < expected then Err(ShortRead)
    else Ok(g.bytes)
  }

  function ReadExact(answers: Answers, at: nat, expected: nat): Gathered {
    Gather(answers, at, expected, [], [])
  }

  method ReadExactBounded(answers: Answers, at: nat, expectedSize: nat)
    returns (r: Result<Bytes, ReadFailure>, ghost events: seq<Event>, next: nat)
    ensures r == ExactOutcome(ReadExact(answers, at, expectedSize), expectedSize)
    ensures next == ReadExact(answers, at, expectedSize).next
    ensures events == ReadExact(answers, at, expectedSize).events
  {
    var remaining := expectedSize + 1;
    var chunks: Bytes := [];
    var observed := 0;
    next := at;
    events := [];
    while remaining > 0
      invariant remaining == expectedSize + 1 - |chunks| && observed == |chunks|
      invariant remaining >= 0
      invariant Gather(answers, at, expectedSize, [], []) == Gather(answers, next, expectedSize, events, chunks)
    {
      var requested := Least(READ_CHUNK_BYTES, remaining);
      var chunk := Reply(answers, next, requested);
      events := events + [Event(next, requested, chunk)];
      next := next + 1;
      if chunk.None? {
        return Err(Unreadable), events, next;
      }
      if chunk.value == [] {
        break;
      }
      chunks := chunks + chunk.value;
      observed := observed + |chunk.value|;
      remaining := remaining - |chunk.value|;
    }
    if observed > expectedSize {
      return Err(OverlongRead), events, next;
    }
    if observed < expectedSize {
      return Err(ShortRead), events, next;
    }
    return Ok(chunks), events, next;
  }

  /** The capture reader meets the specification, and succeeds on exactly the expected bytes and the end. */
  lemma ReadExactMeetsSpec(answers: Answers, at: nat, expected: nat)
    ensures var g := ReadExact(answers, at, expected);
            && Stopped(g, at, expected)
            && (ExactOutcome(g, expected).Ok? <==> ExactlyRead(g.events, expected))
            && (ExactOutcome(g, expected).Ok? ==> ExactOutcome(g, expected).value == Joined(g.events))
  {
    GatherMeetsSpec(answers, at, at, expected, [], []);
  }

  // ----- reading to the end of the file, at most one byte past a maximum -----

  /** None is a failed read; the length is the caller's to check. */
  function EofOutcome(g: Gathered): Option<Bytes> {
    if g.failed then None else Some(g.bytes)
  }

  method ReadToEofOnce(answers: Answers, at: nat, maximumBytes: nat)
    returns (r: Option<Bytes>, ghost events: seq<Event>, next: nat)
    ensures r == EofOutcome(Gather(answers, at, maximumBytes, [], []))
    ensures next == Gather(answers, at, maximumBytes, [], []).next
    ensures events == Gather(answers, at, maximumBytes, [], []).events
  {
    var chunks: Bytes := [];
    var observed := 0;
    next := at;
    events := [];
    while true
      invariant observed == |chunks| <= maximumBytes
      invariant Gather(answers, at, maximumBytes, [], []) == Gather(answers, next, maximumBytes, events, chunks)
      decreases maximumBytes + 1 - observed
    {
      var requested := Least(READ_CHUNK_BYTES, maximumBytes + 1 - observed);
      var chunk := Reply(answers, next, requested);
      events := events + [Event(next, requested, chunk)];
      next := next + 1;
      if chunk.None? {
        return None, events, next;
      }
      if chunk.value == [] {
        break;
      }
      chunks := chunks + chunk.value;
      observed := observed + |chunk.value|;
      if observed > maximumBytes {
        break;
      }
    }
    return Some(chunks), events, next;
  }

  /** The caller's check: the length the file had before, which was within the maximum. */
  lemma ReadToEofMeetsSpec(answers: Answers, at: nat, maximumBytes: nat, sizeBefore: nat)
    requires sizeBefore <= maximumBytes
    ensures var g := Gather(answers, at, maximumBytes, [], []);
            && Stopped(g, at, maximumBytes)
            && (EofOutcome(g).Some? && |EofOutcome(g).value| == sizeBefore <==> ExactlyRead(g.events, sizeBefore))
  {
    GatherMeetsSpec(answers, at, at, maximumBytes, [], []);
  }

  // ----- reading exactly, then requiring the end -----

  function GatherExactly(answers: Answers, at: nat, expected: nat, events: seq<Event>, bytes: Bytes): Gathered
    requires |bytes| <= expected
    decreases expected - |bytes|
  {
    if |bytes| == expected then
      var reply := Reply(answers, at, 1);
      var seen := events + [Event(at, 1, reply)];
      Gathered(at + 1, seen, bytes + (if reply.Some? then reply.value else []), reply.None?)
    else
      var requested := Least(READ_CHUNK_BYTES, expected - |bytes|);
      var reply := Reply(answers, at, requested);
      var seen := events + [Event(at, requested, reply)];
      if reply.None? then Gathered(at + 1, seen, bytes, true)
      else if reply.value == [] then Gathered(at + 1, seen, bytes, false)
      else GatherExactly(answers, at + 1, expected, seen, bytes + reply.value)
  }

  lemma {:induction false} GatherExactlyMeetsSpec(answers: Answers, start: nat, at: nat, expected: nat,
                                                  events: seq<Event>, bytes: Bytes)
    requires |bytes| <= expected && Underway(events, start, expected, bytes) && at == start + |events|
    ensures Stopped(GatherExactly(answers, at, expected, events, bytes), start, expected)
    decreases expected - |bytes|
  {
    var requested := if |bytes| == expected then 1 else Least(READ_CHUNK_BYTES, expected - |bytes|);
    var e := Event(at, requested, Reply(answers, at, requested));
    OneMore(events, start, expected, bytes, e);
    assert (events + [e])[|events|] == e;
    if |bytes| < expected && e.reply.Some? && e.reply.value != [] {
      GatherExactlyMeetsSpec(answers, start, at + 1, expected, events + [e], bytes + e.reply.value);
    } else {
      assert e.reply.None? ==> bytes + Received(e) == bytes;
    }
  }

  datatype ExactFailure = ResponseUnreadable | ResponseUnstable

  /** The publisher reader's outcome: any length but the expected one is instability. */
  function PublisherOutcome(g: Gathered, expected: nat): Result<Bytes, ExactFailure> {
    if g.failed then Err(ResponseUnreadable)
    else if |g.bytes| != expected then Err(ResponseUnstable)
    else Ok(g.bytes)
  }

  method ReadExactly(answers: Answers, at: nat, expectedSize: nat)
    returns (r: Result<Bytes, ExactFailure>, ghost events: seq<Event>, next: nat)
    ensures r == PublisherOutcome(GatherExactly(answers, at, expectedSize, [], []), expectedSize)
    ensures next == GatherExactly(answers, at, expectedSize, [], []).next
    ensures events == GatherExactly(answers, at, expectedSize, [], []).events
  {
    var chunks: Bytes := [];
    var total := 0;
    next := at;
    events := [];
    while total < expectedSize
      invariant total == |chunks| <= expectedSize
      invariant GatherExactly(answers, at, expectedSize, [], [])
                == GatherExactly(answers, next, expectedSize, events, chunks)
    {
      var requested := Least(READ_CHUNK_BYTES, expectedSize - total);
      var chunk := Reply(answers, next, requested);
      events := events + [Event(next, requested, chunk)];
      next := next + 1;
      if chunk.None? {
        return Err(ResponseUnreadable), events, next;
      }
      if chunk.value == [] {
        return Err(ResponseUnstable), events, next;
      }
      total := total + |chunk.value|;
      chunks := chunks + chunk.value;
    }
    var trailing := Reply(answers, next, 1);
    events := events + [Event(next, 1, trailing)];
    next := next + 1;
    if trailing.None? {
      return Err(ResponseUnreadable), events, next;
    }
    if trailing.value != [] {
      return Err(ResponseUnstable), events, next;
    }
    assert chunks + [] == chunks;
    return Ok(chunks), events, next;
  }

  lemma ReadExactlyMeetsSpec(answers: Answers, at: nat, expected: nat)
    ensures var g := GatherExactly(answers, at, expected, [], []);
            && Stopped(g, at, expected)
            && (PublisherOutcome(g, expected).Ok? <==> ExactlyRead(g.events, expected))
            && (PublisherOutcome(g, expected).Ok? ==> PublisherOutcome(g, expected).value == Joined(g.events))
  {
    GatherExactlyMeetsSpec(answers, at, at, expected, [], []);
  }

  // ----- the same file, whatever the reads -----

  /** Answers that come from one content that stays put: each is the next stretch of it, and empty only at its end. */
  predicate Serves(content: Bytes, events: seq<Event>) {
    forall i :: 0 <= i < |events| ==>
      && events[i].reply.Some?
      && Joined(events[..i]) + events[i].reply.value <= content
      && (events[i].reply.value == [] ==> Joined(events[..i]) == content)
  }

  /**
   Over a file that stays put, all three readers agree on what it takes to succeed: whatever the
   pattern of short reads, it is the file having exactly the expected length.
   */
  lemma SteadyFile(content: Bytes, g: Gathered, start: nat, expected: nat)
    requires Stopped(g, start, expected) && Serves(content, g.events)
    ensures ExactlyRead(g.events, expected) <==> |content| == expected
    ensures ExactlyRead(g.events, expected) ==> g.bytes == content
  {
    if g.events != [] {
      var n := |g.events| - 1;
      assert g.events == g.events[..n] + [g.events[n]];
      JoinedAppend(g.events[..n], g.events[n]);
    }
  }

  // ----- a file others may write to -----

  /** What a file holds, and its change time, at every instant. */
  datatype History = History(content: nat -> Bytes, ctime: nat -> int)

  /** Whenever the change time is the same at two instants, nothing was written between them. */
  ghost predicate WritesMoveChangeTime(f: History) {
    forall s: nat, u: nat, t: nat :: s <= u <= t && f.ctime(s) == f.ctime(t) ==> f.content(u) == f.content(s)
  }
}
