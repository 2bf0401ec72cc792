/**
 Two readers of a single file: `stable_read_exact_bytes` (common/stable_read.py), which reads it
 once, and `_authenticated_response_bytes` (cli/weekly_shadow_01_report_publisher_cli.py), which
 reads it twice over one descriptor. What the system answers to each call is arbitrary.
 */
module FileReads {
  import opened Outcomes
  import opened Texts
  import opened BoundedReaders
  import opened Descriptors
  import SourceText

  /** One observation; the mode is whether the file is regular, and the rest of it. */
  datatype Status = Status(device: int, inode: int, regular: bool, mode: int, links: int, size: nat, mtime: int,
                           ctime: int)

  datatype Errno = InputErrno | CapabilityErrno | OtherErrno

  /** The answer to the call made at each time, for each kind of call. */
  datatype Oracle = Oracle(
    open: nat -> Option<Errno>,
    entry: nat -> Option<Status>,
    fstat: nat -> Result<Status, Errno>,
    read: Answers,
    readErrno: nat -> Errno,
    seek: nat -> bool,
    close: nat -> bool)

  /** What was seen through the descriptor of the file, and each pass of reads from its start. */
  datatype Trace = Observed(at: nat, status: Status) | Pass(events: seq<Event>)

  datatype State = State(time: nat, descriptors: seq<Fd>, opens: seq<Fd>, closes: seq<Fd>, trace: seq<Trace>)

  const START: State := State(0, [], [], [], [])

  datatype Step<+T, +E> = Step(state: State, outcome: Result<T, E>)

  // ----- what every step keeps -----

  ghost predicate Conserved(s: State) {
    && multiset(s.opens) == multiset(s.closes) + multiset(s.descriptors)
    && (forall i, j :: 0 <= i < j < |s.opens| ==> s.opens[i] < s.opens[j])
    && (forall i :: 0 <= i < |s.opens| ==> s.opens[i] < s.time)
  }

  ghost predicate Keeps(s: State, t: State) {
    s.time <= t.time && s.trace <= t.trace && (Conserved(s) ==> Conserved(t))
  }

  lemma KeepsChain(s: State, t: State, u: State)
    requires Keeps(s, t) && Keeps(t, u)
    ensures Keeps(s, u)
  {
  }

  // ----- single calls -----

  function Tick(s: State): (t: State)
    ensures Keeps(s, t)
  {
    s.(time := s.time + 1)
  }

  function Opened(s: State): (t: State)
    ensures Keeps(s, t)
  {
    var t := s.(time := s.time + 1, descriptors := s.descriptors + [s.time], opens := s.opens + [s.time]);
    assert Conserved(s) ==> Conserved(t);
    t
  }

  function Seen(s: State, status: Status): (t: State)
    ensures Keeps(s, t)
  {
    s.(time := s.time + 1, trace := s.trace + [Observed(s.time, status)])
  }

  function AfterPass(s: State, g: Gathered): (t: State)
    requires g.next >= s.time
    ensures Keeps(s, t)
  {
    s.(time := g.next, trace := s.trace + [Pass(g.events)])
  }

  // ----- closing -----

  function CloseLast(s: State): (t: State)
    requires s.descriptors != []
    ensures Keeps(s, t)
  {
    var n := |s.descriptors| - 1;
    assert s.descriptors == s.descriptors[..n] + [s.descriptors[n]];
    s.(time := s.time + 1, descriptors := s.descriptors[..n], closes := s.closes + [s.descriptors[n]])
  }

  /** Every descriptor, last first, whatever the closes before it did. */
  function CloseAll(o: Oracle, s: State): (r: (State, bool))
    ensures Keeps(s, r.0) && r.0.descriptors == []
    decreases |s.descriptors|
  {
    if s.descriptors == [] then (s, false)
    else
      var (u, failed) := CloseAll(o, CloseLast(s));
      (u, failed || !o.close(s.time))
  }

  // ----- reading once -----

  datatype StableFailure = InputInvalid | CapabilityUnavailable | RawOsError

  function Translate(e: Errno): StableFailure {
    match e
    case InputErrno => InputInvalid
    case CapabilityErrno => CapabilityUnavailable
    case OtherErrno => RawOsError
  }

  /** Links and mode are not compared here. */
  predicate SameFile(a: Status, b: Status) {
    a.device == b.device && a.inode == b.inode && a.size == b.size && a.mtime == b.mtime && a.ctime == b.ctime
  }

  function ReadOnce(o: Oracle, s: State, before: Status, maximumBytes: nat): (r: Step<Bytes, StableFailure>)
    ensures Keeps(s, r.state)
  {
    GatherMeetsSpec(o.read, s.time, s.time, maximumBytes, [], []);
    var g := Gather(o.read, s.time, maximumBytes, [], []);
    var read := AfterPass(s, g);
    if g.failed then Step(read, Err(Translate(o.readErrno(g.next - 1))))
    else
      match o.fstat(read.time)
      case Err(e) => Step(Tick(read), Err(Translate(e)))
      case Ok(after) =>
        Step(Seen(read, after),
             if SameFile(before, after) && |g.bytes| == before.size then Ok(g.bytes) else Err(InputInvalid))
  }

  function StableBody(o: Oracle, s: State, maximumBytes: int): (r: Step<Bytes, StableFailure>)
    ensures Keeps(s, r.state)
  {
    match o.open(s.time)
    case Some(e) => Step(Tick(s), Err(Translate(e)))
    case None =>
      var file := Opened(s);
      match o.fstat(file.time)
      case Err(e) =>
        KeepsChain(s, file, Tick(file));
        Step(Tick(file), Err(Translate(e)))
      case Ok(before) =>
        var seen := Seen(file, before);
        KeepsChain(s, file, seen);
        if !before.regular || before.size < 1 || before.size > maximumBytes then Step(seen, Err(InputInvalid))
        else
          var read := ReadOnce(o, seen, before, maximumBytes);
          KeepsChain(s, seen, read.state);
          read
  }

  /** The descriptor is closed last, and an error in closing it replaces whatever came before. */
  function StableRead(o: Oracle, maximumBytes: int): (r: Step<Bytes, StableFailure>)
  {
    var body := StableBody(o, START, maximumBytes);
    var (closed, failed) := CloseAll(o, body.state);
    Step(closed, if failed then Err(RawOsError) else body.outcome)
  }

  // ----- reading twice -----

  datatype ResponseFailure = FileNotAbsolute | FileWrongType | FileUnstable | FileUnreadable | FileOversized

  const MAXIMUM_RAW_RESPONSE_BYTES: nat := 131_072

  predicate ForbiddenComponent(name: string) {
    name == "" || name == "." || name == ".."
  }

  function SelectorComponents(selector: string): (r: Option<seq<string>>)
    ensures r.Some? ==> r.value != []
  {
    if !SourceText.StartsWith(selector, "/") then None
    else
      var parts := SourceText.Split(selector, '/');
      if |parts| < 2 || exists i :: 1 <= i < |parts| && ForbiddenComponent(parts[i]) then None
      else Some(parts[1..])
  }

  /** The root and every directory below it, each retained. */
  function OpenDirectories(o: Oracle, s: State, count: nat): (r: Step<(), ResponseFailure>)
    ensures Keeps(s, r.state)
    ensures if r.outcome.Ok? then r.state.time == s.time + count && r.state.trace == s.trace
            else r.outcome.error == FileUnreadable
    decreases count
  {
    if count == 0 then Step(s, Ok(()))
    else if o.open(s.time).Some? then Step(Tick(s), Err(FileUnreadable))
    else OpenDirectories(o, Opened(s), count - 1)
  }

  /** The entry by name, the file opened, and its own status compared with the entry. */
  function OpenResponse(o: Oracle, s: State): (r: Step<Status, ResponseFailure>)
    ensures Keeps(s, r.state)
    ensures r.outcome.Ok? ==>
              r.state.time == s.time + 3 && r.state.trace == s.trace + [Observed(s.time + 2, r.outcome.value)]
              && r.outcome.value.size <= MAXIMUM_RAW_RESPONSE_BYTES
  {
    match o.entry(s.time)
    case None => Step(Tick(s), Err(FileUnreadable))
    case Some(entry) =>
      var seen := Tick(s);
      if !entry.regular then Step(seen, Err(FileWrongType))
      else if entry.size > MAXIMUM_RAW_RESPONSE_BYTES then Step(seen, Err(FileOversized))
      else if o.open(seen.time).Some? then
        KeepsChain(s, seen, Tick(seen));
        Step(Tick(seen), Err(FileUnreadable))
      else
        var file := Opened(seen);
        KeepsChain(s, seen, file);
        match o.fstat(file.time)
        case Err(_) =>
          KeepsChain(s, file, Tick(file));
          Step(Tick(file), Err(FileUnreadable))
        case Ok(status) =>
          KeepsChain(s, file, Seen(file, status));
          Step(Seen(file, status),
               if !status.regular then Err(FileWrongType) else if status != entry then Err(FileUnstable)
               else Ok(status))
  }

  function FailureOf(e: ExactFailure): ResponseFailure {
    if e.ResponseUnreadable? then FileUnreadable else FileUnstable
  }

  /** The descriptor and the entry by name, both still what was accepted. */
  function RequireStable(o: Oracle, s: State, expected: Status): (r: Step<(), ResponseFailure>)
    ensures Keeps(s, r.state)
    ensures r.outcome.Ok? ==> r.state.time == s.time + 2 && r.state.trace == s.trace + [Observed(s.time, expected)]
  {
    match o.fstat(s.time)
    case Err(_) => Step(Tick(s), Err(FileUnstable))
    case Ok(status) =>
      var seen := Seen(s, status);
      Step(Tick(seen),
           if o.entry(seen.time) == Some(expected) && expected.regular && status == expected then Ok(())
           else Err(FileUnstable))
  }

  /** One pass of reads, and the evidence rechecked after it. */
  function CheckedPass(o: Oracle, s: State, expected: Status): (r: Step<Bytes, ResponseFailure>)
    ensures Keeps(s, r.state)
  {
    GatherExactlyMeetsSpec(o.read, s.time, s.time, expected.size, [], []);
    var g := GatherExactly(o.read, s.time, expected.size, [], []);
    var read := AfterPass(s, g);
    match PublisherOutcome(g, expected.size)
    case Err(e) => Step(read, Err(FailureOf(e)))
    case Ok(bytes) =>
      var stable := RequireStable(o, read, expected);
      KeepsChain(s, read, stable.state);
      Step(stable.state, if stable.outcome.Ok? then Ok(bytes) else Err(stable.outcome.error))
  }

  /** From the start again, compared with the first pass. */
  function ReadAgain(o: Oracle, s: State, expected: Status, first: Bytes): (r: Step<Bytes, ResponseFailure>)
    ensures Keeps(s, r.state)
  {
    if !o.seek(s.time) then Step(Tick(s), Err(FileUnreadable))
    else
      var second := CheckedPass(o, Tick(s), expected);
      if second.outcome.Err? then second
      else
        Step(second.state, if first == second.outcome.value && |first| == expected.size then Ok(first)
                           else Err(FileUnstable))
  }

  function ReadTwice(o: Oracle, s: State, expected: Status): (r: Step<Bytes, ResponseFailure>)
    ensures Keeps(s, r.state)
  {
    var first := CheckedPass(o, s, expected);
    if first.outcome.Err? then first else ReadAgain(o, first.state, expected, first.outcome.value)
  }

  /** The path is the root and the components; the last names the file. */
  function OpenSelected(o: Oracle, s: State, components: seq<string>): (r: Step<Status, ResponseFailure>)
    ensures Keeps(s, r.state)
    ensures r.outcome.Ok? ==>
              r.state.time == s.time + |components| + 3
              && r.state.trace == s.trace + [Observed(s.time + |components| + 2, r.outcome.value)]
              && r.outcome.value.size <= MAXIMUM_RAW_RESPONSE_BYTES
  {
    var parents := OpenDirectories(o, s, |components|);
    if parents.outcome.Err? then Step(parents.state, Err(parents.outcome.error)) else OpenResponse(o, parents.state)
  }

  function ResponseBody(o: Oracle, s: State, components: seq<string>): (r: Step<Bytes, ResponseFailure>)
    ensures Keeps(s, r.state)
  {
    var file := OpenSelected(o, s, components);
    if file.outcome.Err? then Step(file.state, Err(file.outcome.error))
    else ReadTwice(o, file.state, file.outcome.value)
  }

  /** Closing comes last, and a failure in it replaces whatever came before. */
  function AuthenticatedBytes(o: Oracle, selector: string): Step<Bytes, ResponseFailure> {
    var components := SelectorComponents(selector);
    if components.None? then Step(START, Err(FileNotAbsolute))
    else
      var body := ResponseBody(o, START, components.value);
      var (closed, failed) := CloseAll(o, body.state);
      Step(closed, if failed then Err(FileUnreadable) else body.outcome)
  }

  // ----- descriptors, and which failure is reported -----

  ghost predicate AllClosedOnce(s: State) {
    s.descriptors == [] && ClosedOnce(s.opens, s.closes)
  }

  lemma ConservedAtEnd(s: State)
    requires Conserved(s) && s.descriptors == []
    ensures AllClosedOnce(s)
  {
    assert multiset(s.opens) == multiset(s.closes);
    NothingRetained(s.opens, s.closes);
  }

  /** On every run of either reader, whatever fails, each descriptor opened is closed exactly once. */
  lemma ReadersConserve(o: Oracle, maximumBytes: int, selector: string)
    ensures AllClosedOnce(StableRead(o, maximumBytes).state)
    ensures AllClosedOnce(AuthenticatedBytes(o, selector).state)
  {
    assert Conserved(START);
    ConservedAtEnd(StableRead(o, maximumBytes).state);
    ConservedAtEnd(AuthenticatedBytes(o, selector).state);
  }

  /** The next calls are the closes, one for each descriptor, and some of them fails. */
  predicate SomeCloseFails(o: Oracle, s: State) {
    AnyFails(o.close, s.time, |s.descriptors|)
  }

  lemma {:induction false} ClosesFail(o: Oracle, s: State)
    ensures CloseAll(o, s).1 <==> SomeCloseFails(o, s)
    decreases |s.descriptors|
  {
    if s.descriptors != [] {
      ClosesFail(o, CloseLast(s));
      FirstOrLater(o.close, s.time, |s.descriptors|);
    }
  }

  /**
   Here a failed close does mask: whatever the reader had to report, success or failure, is
   replaced exactly when some close fails.
   */
  lemma ClosingMasks(o: Oracle, maximumBytes: int, selector: string)
    ensures var body := StableBody(o, START, maximumBytes);
            StableRead(o, maximumBytes).outcome == if SomeCloseFails(o, body.state) then Err(RawOsError)
                                                   else body.outcome
    ensures SelectorComponents(selector).Some? ==>
              var body := ResponseBody(o, START, SelectorComponents(selector).value);
              AuthenticatedBytes(o, selector).outcome
                == if SomeCloseFails(o, body.state) then Err(FileUnreadable) else body.outcome
  {
    ClosesFail(o, StableBody(o, START, maximumBytes).state);
    if SelectorComponents(selector).Some? {
      ClosesFail(o, ResponseBody(o, START, SelectorComponents(selector).value).state);
    }
  }

  /**
   A run that shows it: the file opened is not a regular one, which the reader is about to report,
   and closing it fails; the failure to close is what the caller gets.
   */
  lemma CloseMasksRejection(o: Oracle, maximumBytes: int, status: Status)
    requires o.open(0) == None && o.fstat(1) == Ok(status) && !status.regular && !o.close(2)
    ensures StableBody(o, START, maximumBytes).outcome == Err(InputInvalid)
    ensures StableRead(o, maximumBytes).outcome == Err(RawOsError)
    ensures StableRead(o, maximumBytes).state.opens == StableRead(o, maximumBytes).state.closes == [0]
  {
    var seen := Seen(Opened(START), status);
    assert StableBody(o, START, maximumBytes) == Step(seen, Err(InputInvalid));
    CloseOnly(o, seen);
  }

  lemma CloseOnly(o: Oracle, s: State)
    requires |s.descriptors| == 1
    ensures CloseAll(o, s) == (CloseLast(s), !o.close(s.time))
    ensures CloseLast(s).opens == s.opens && CloseLast(s).closes == s.closes + s.descriptors
  {
  }

  // ----- content stability -----

  /** A pass from the start of the file: each answer is the next stretch of what it then held. */
  predicate TruePass(f: History, events: seq<Event>) {
    forall i :: 0 <= i < |events| && events[i].reply.Some? ==>
      && Joined(events[..i]) + events[i].reply.value <= f.content(events[i].at)
      && (events[i].reply.value == [] ==> Joined(events[..i]) == f.content(events[i].at))
  }

  predicate Truthful(f: History, entry: Trace) {
    match entry
    case Observed(at, status) => status.ctime == f.ctime(at) && status.size == |f.content(at)|
    case Pass(events) => TruePass(f, events)
  }

  predicate Faithful(f: History, trace: seq<Trace>) {
    forall i :: 0 <= i < |trace| ==> Truthful(f, trace[i])
  }

  /** A complete pass over a span without writes returns the content. */
  lemma SteadyPass(f: History, g: Gathered, start: nat, expected: nat, content: Bytes)
    requires Stopped(g, start, expected) && ExactlyRead(g.events, expected) && TruePass(f, g.events)
    requires forall u: nat :: start <= u < g.next ==> f.content(u) == content
    ensures g.bytes == content
  {
    var n := |g.events| - 1;
    forall i | 0 <= i < |g.events|
      ensures g.events[i].reply.Some? && f.content(g.events[i].at) == content
    {
      assert i < n ==> g.events[i].reply.Some?;
      assert g.events[i].at == start + i;
    }
    SteadyFile(content, g, start, expected);
  }

  /** The content is these bytes at every instant from one to another. */
  predicate ContentDuring(f: History, bytes: Bytes, first: nat, last: nat) {
    forall u: nat :: first <= u <= last ==> f.content(u) == bytes
  }

  lemma Unwritten(f: History, first: nat, last: nat)
    requires WritesMoveChangeTime(f) && first <= last && f.ctime(first) == f.ctime(last)
    ensures ContentDuring(f, f.content(first), first, last)
  {
  }

  lemma ReadOnceStable(o: Oracle, f: History, s: State, before: Status, maximumBytes: nat, first: nat)
    requires var r := ReadOnce(o, s, before, maximumBytes);
             r.outcome.Ok? && WritesMoveChangeTime(f) && Faithful(f, r.state.trace)
    requires before.size <= maximumBytes && first < s.time && f.ctime(first) == before.ctime
    ensures var r := ReadOnce(o, s, before, maximumBytes);
            r.state.time > s.time && ContentDuring(f, r.outcome.value, first, r.state.time - 1)
  {
    var r := ReadOnce(o, s, before, maximumBytes);
    var g := Gather(o.read, s.time, maximumBytes, [], []);
    ReadToEofMeetsSpec(o.read, s.time, maximumBytes, before.size);
    assert r.state.trace[|s.trace|] == Pass(g.events);
    assert r.state.trace[|s.trace| + 1].Observed?;
    Unwritten(f, first, g.next);
    OnceReadContent(f, g, s.time, maximumBytes, before.size, f.content(first));
  }

  lemma OnceReadContent(f: History, g: Gathered, start: nat, limit: nat, size: nat, content: Bytes)
    requires Stopped(g, start, limit) && ExactlyRead(g.events, size) && size <= limit && TruePass(f, g.events)
    requires forall u: nat :: start <= u < g.next ==> f.content(u) == content
    ensures g.bytes == content
  {
    assert Stopped(g, start, size);
    SteadyPass(f, g, start, size, content);
  }

  lemma StableSteps(o: Oracle, maximumBytes: int) returns (before: Status, s: State)
    requires StableBody(o, START, maximumBytes).outcome.Ok?
    ensures 1 <= before.size <= maximumBytes && s.time == 2 && s.trace == [Observed(1, before)]
    ensures StableBody(o, START, maximumBytes) == ReadOnce(o, s, before, maximumBytes)
  {
    var file := Opened(START);
    before := o.fstat(file.time).value;
    s := Seen(file, before);
  }

  /**
   The single reading: if writes move the change time, what it returns was the whole content at
   every instant from the first observation of the descriptor to the last.
   */
  lemma StableReadStable(o: Oracle, f: History, maximumBytes: int)
    requires StableRead(o, maximumBytes).outcome.Ok?
    requires WritesMoveChangeTime(f) && Faithful(f, StableBody(o, START, maximumBytes).state.trace)
    ensures var bytes := StableRead(o, maximumBytes).outcome.value;
            && 1 <= |bytes| <= maximumBytes
            && ContentDuring(f, bytes, 1, StableBody(o, START, maximumBytes).state.time - 1)
  {
    var before, s := StableSteps(o, maximumBytes);
    var r := ReadOnce(o, s, before, maximumBytes);
    assert r.state.trace[0] == s.trace[0];
    ReadOnceStable(o, f, s, before, maximumBytes, 1);
  }

  lemma CheckedPassStable(o: Oracle, f: History, s: State, expected: Status, first: nat, trace: seq<Trace>)
    requires CheckedPass(o, s, expected).outcome.Ok? && CheckedPass(o, s, expected).state.trace <= trace
    requires WritesMoveChangeTime(f) && Faithful(f, trace)
    requires first < s.time && f.ctime(first) == expected.ctime && |f.content(first)| == expected.size
    ensures var r := CheckedPass(o, s, expected);
            r.state.time - 2 > s.time && r.outcome.value == f.content(first)
            && ContentDuring(f, r.outcome.value, first, r.state.time - 2)
  {
    var r := CheckedPass(o, s, expected);
    var g := GatherExactly(o.read, s.time, expected.size, [], []);
    ReadExactlyMeetsSpec(o.read, s.time, expected.size);
    assert r.state.trace[|s.trace|] == Pass(g.events);
    assert r.state.trace[|s.trace| + 1] == Observed(g.next, expected);
    assert trace[|s.trace|] == Pass(g.events) && trace[|s.trace| + 1] == Observed(g.next, expected);
    Unwritten(f, first, g.next);
    SteadyPass(f, g, s.time, expected.size, f.content(first));
  }

  /** So comparing the two passes can never fail once the evidence after each has held. */
  lemma SecondPassRedundant(o: Oracle, f: History, s: State, expected: Status, first: nat)
    requires CheckedPass(o, s, expected).outcome.Ok? && o.seek(CheckedPass(o, s, expected).state.time)
    requires CheckedPass(o, Tick(CheckedPass(o, s, expected).state), expected).outcome.Ok?
    requires WritesMoveChangeTime(f) && Faithful(f, ReadTwice(o, s, expected).state.trace)
    requires first < s.time && f.ctime(first) == expected.ctime && |f.content(first)| == expected.size
    ensures var r := ReadTwice(o, s, expected);
            && r.outcome == Ok(f.content(first)) && r.state.time - 2 > s.time
            && ContentDuring(f, f.content(first), first, r.state.time - 2)
  {
    var once := CheckedPass(o, s, expected);
    var twice := CheckedPass(o, Tick(once.state), expected);
    CheckedPassStable(o, f, s, expected, first, twice.state.trace);
    CheckedPassStable(o, f, Tick(once.state), expected, first, twice.state.trace);
  }

  lemma BothPasses(o: Oracle, s: State, expected: Status)
    requires ReadTwice(o, s, expected).outcome.Ok?
    ensures var once := CheckedPass(o, s, expected);
            once.outcome.Ok? && o.seek(once.state.time) && CheckedPass(o, Tick(once.state), expected).outcome.Ok?
  {
  }

  lemma TwiceStable(o: Oracle, f: History, s: State, expected: Status, first: nat)
    requires ReadTwice(o, s, expected).outcome.Ok? && WritesMoveChangeTime(f)
    requires Faithful(f, ReadTwice(o, s, expected).state.trace)
    requires s.time == first + 1 && s.trace == [Observed(first, expected)]
    ensures var body := ReadTwice(o, s, expected);
            && |body.outcome.value| == expected.size && body.state.time >= 2
            && ContentDuring(f, body.outcome.value, first, body.state.time - 2)
  {
    assert ReadTwice(o, s, expected).state.trace[0] == s.trace[0];
    BothPasses(o, s, expected);
    SecondPassRedundant(o, f, s, expected, first);
  }

  lemma BodyStable(o: Oracle, f: History, components: seq<string>)
    requires ResponseBody(o, START, components).outcome.Ok? && WritesMoveChangeTime(f)
    requires Faithful(f, ResponseBody(o, START, components).state.trace)
    ensures var body := ResponseBody(o, START, components);
            && |body.outcome.value| <= MAXIMUM_RAW_RESPONSE_BYTES && body.state.time >= 2
            && ContentDuring(f, body.outcome.value, |components| + 2, body.state.time - 2)
  {
    var file := OpenSelected(o, START, components);
    TwiceStable(o, f, file.state, file.outcome.value, |components| + 2);
  }

  /**
   The double reading: what it returns was the whole content at every instant from the first
   observation of the descriptor, which follows one call for each component and two more, to the
   last, which only the entry's own observation follows.
   */
  lemma AuthenticatedStable(o: Oracle, f: History, selector: string)
    requires AuthenticatedBytes(o, selector).outcome.Ok? && WritesMoveChangeTime(f)
    requires SelectorComponents(selector).Some? ==>
               Faithful(f, ResponseBody(o, START, SelectorComponents(selector).value).state.trace)
    ensures SelectorComponents(selector).Some?
    ensures var components := SelectorComponents(selector).value;
            var body, bytes := ResponseBody(o, START, components), AuthenticatedBytes(o, selector).outcome.value;
            && |bytes| <= MAXIMUM_RAW_RESPONSE_BYTES && body.state.time >= 2
            && ContentDuring(f, bytes, |components| + 2, body.state.time - 2)
  {
    BodyStable(o, f, SelectorComponents(selector).value);
  }

  // ----- a quiet file is read -----

  /** Nothing fails, and every observation is the same. */
  ghost predicate Quiet(o: Oracle, status: Status) {
    && (forall t :: o.open(t) == None) && (forall t :: o.seek(t)) && (forall t :: o.close(t))
    && (forall t :: o.entry(t) == Some(status)) && (forall t :: o.fstat(t) == Ok(status))
  }

  /** Reads that serve one content never get past it. */
  lemma ServedWithin(content: Bytes, g: Gathered, start: nat, limit: nat)
    requires Stopped(g, start, limit) && Serves(content, g.events) && |content| <= limit
    ensures Stopped(g, start, |content|) && !g.failed
  {
    if g.events != [] {
      var n := |g.events| - 1;
      assert g.events == g.events[..n] + [g.events[n]];
      JoinedAppend(g.events[..n], g.events[n]);
    }
  }

  lemma NoCloseFails(o: Oracle, s: State, status: Status)
    requires Quiet(o, status)
    ensures !CloseAll(o, s).1
  {
    ClosesFail(o, s);
  }

  /** The single reading of a quiet file succeeds, whatever the pattern of short reads. */
  lemma QuietStableRead(o: Oracle, content: Bytes, status: Status, maximumBytes: nat)
    requires Quiet(o, status) && status.regular && status.size == |content| && 1 <= |content| <= maximumBytes
    requires Serves(content, Gather(o.read, 2, maximumBytes, [], []).events)
    ensures StableRead(o, maximumBytes).outcome == Ok(content)
  {
    var g := Gather(o.read, 2, maximumBytes, [], []);
    GatherMeetsSpec(o.read, 2, 2, maximumBytes, [], []);
    ServedWithin(content, g, 2, maximumBytes);
    SteadyFile(content, g, 2, |content|);
    NoCloseFails(o, StableBody(o, START, maximumBytes).state, status);
  }

  lemma QuietPass(o: Oracle, s: State, content: Bytes, status: Status)
    requires Quiet(o, status) && status.regular && status.size == |content|
    requires Serves(content, GatherExactly(o.read, s.time, |content|, [], []).events)
    ensures CheckedPass(o, s, status).outcome == Ok(content)
    ensures CheckedPass(o, s, status).state.time == GatherExactly(o.read, s.time, |content|, [], []).next + 2
  {
    var g := GatherExactly(o.read, s.time, |content|, [], []);
    ReadExactlyMeetsSpec(o.read, s.time, |content|);
    SteadyFile(content, g, s.time, |content|);
  }

  lemma QuietAgain(o: Oracle, s: State, content: Bytes, status: Status)
    requires Quiet(o, status) && status.regular && status.size == |content|
    requires Serves(content, GatherExactly(o.read, s.time + 1, |content|, [], []).events)
    ensures ReadAgain(o, s, status, content).outcome == Ok(content)
  {
    QuietPass(o, Tick(s), content, status);
  }

  /** A pass of reads, and another after the observations and the seek between them. */
  predicate ServesTwice(o: Oracle, start: nat, content: Bytes) {
    var g := GatherExactly(o.read, start, |content|, [], []);
    Serves(content, g.events) && Serves(content, GatherExactly(o.read, g.next + 3, |content|, [], []).events)
  }

  lemma AgainIsTwice(o: Oracle, s: State, expected: Status, bytes: Bytes)
    requires CheckedPass(o, s, expected).outcome == Ok(bytes)
    ensures ReadTwice(o, s, expected) == ReadAgain(o, CheckedPass(o, s, expected).state, expected, bytes)
  {
  }

  lemma QuietTwice(o: Oracle, s: State, content: Bytes, status: Status)
    requires Quiet(o, status) && status.regular && status.size == |content|
    requires ServesTwice(o, s.time, content)
    ensures ReadTwice(o, s, status).outcome == Ok(content)
  {
    var g := GatherExactly(o.read, s.time, |content|, [], []);
    var first := CheckedPass(o, s, status);
    QuietPass(o, s, content, status);
    assert first.state.time + 1 == g.next + 3;
    QuietAgain(o, first.state, content, status);
    AgainIsTwice(o, s, status, content);
  }

  lemma QuietParents(o: Oracle, s: State, count: nat, status: Status)
    requires Quiet(o, status)
    ensures OpenDirectories(o, s, count).outcome == Ok(())
    decreases count
  {
    if count > 0 {
      QuietParents(o, Opened(s), count - 1, status);
    }
  }

  lemma QuietSelected(o: Oracle, s: State, components: seq<string>, status: Status)
    requires Quiet(o, status) && status.regular && status.size <= MAXIMUM_RAW_RESPONSE_BYTES
    ensures OpenSelected(o, s, components).outcome == Ok(status)
  {
    QuietParents(o, s, |components|, status);
  }

  lemma SelectedThenRead(o: Oracle, components: seq<string>, status: Status)
    requires OpenSelected(o, START, components).outcome == Ok(status)
    ensures ResponseBody(o, START, components) == ReadTwice(o, OpenSelected(o, START, components).state, status)
  {
  }

  lemma QuietBody(o: Oracle, components: seq<string>, content: Bytes, status: Status)
    requires Quiet(o, status) && status.regular && status.size == |content| <= MAXIMUM_RAW_RESPONSE_BYTES
    requires ServesTwice(o, |components| + 3, content)
    ensures ResponseBody(o, START, components).outcome == Ok(content)
  {
    var file := OpenSelected(o, START, components);
    QuietSelected(o, START, components, status);
    SelectedThenRead(o, components, status);
    assert file.state.time == |components| + 3;
    QuietTwice(o, file.state, content, status);
  }

  /** So does the double one, if each pass is served from the start. */
  lemma QuietResponse(o: Oracle, selector: string, content: Bytes, status: Status)
    requires SelectorComponents(selector).Some?
    requires Quiet(o, status) && status.regular && status.size == |content| <= MAXIMUM_RAW_RESPONSE_BYTES
    requires ServesTwice(o, |SelectorComponents(selector).value| + 3, content)
    ensures AuthenticatedBytes(o, selector).outcome == Ok(content)
  {
    QuietBody(o, SelectorComponents(selector).value, content, status);
    NoCloseFails(o, ResponseBody(o, START, SelectorComponents(selector).value).state, status);
  }
}
