/**
 Content stability under interference. If every write moves the change time, a capture that
 succeeds returns the file's whole content at every instant from the first observation of its
 descriptor to the verification of the whole path, whatever writers do in between.
 */
module CaptureStability {
  import opened Outcomes
  import opened Texts
  import opened BoundedReaders
  import opened Descriptors
  import opened CaptureProtocol
  import opened CaptureLaws

  /** One trace entry tells the truth about the file. */
  predicate Truthful(f: History, entry: Trace) {
    match entry
    case Observed(at, _, mark) => mark.ctime == f.ctime(at) && mark.size == |f.content(at)|
    case Read(_, offset, e) =>
      e.reply.Some? ==>
        offset + |e.reply.value| <= |f.content(e.at)|
        && e.reply.value == f.content(e.at)[offset..offset + |e.reply.value|]
  }

  function FdOf(entry: Trace): Fd {
    match entry
    case Observed(_, fd, _) => fd
    case Read(fd, _, _) => fd
  }

  /** The system answers truthfully about the file this descriptor names; nothing is said of any other. */
  predicate Faithful(f: History, trace: seq<Trace>, fd: Fd) {
    forall i :: 0 <= i < |trace| && FdOf(trace[i]) == fd ==> Truthful(f, trace[i])
  }

  // ----- the path verification observes every opened file again -----

  lemma VerifiedSeesAgain(o: Oracle, s: State, root: Root, m: nat)
    requires VerifyPath(o, s, root).outcome.Ok? && m < |s.components| && !s.components[m].directory
    ensures SeenAgain(s, VerifyPath(o, s, root).state, s.components[m])
  {
    var (t, atRoot) := ObserveRoot(o, s, root);
    var (u, verdict) := ObserveComponents(o, t, s.components, 0, atRoot);
    assert FilesSeen(t, u, s.components, 0);
    SeenFromBefore(s, t, u, s.components[m]);
  }

  // ----- reading a content that stays put -----

  /** The i-th answer is the stretch of content that the answers before it lead up to. */
  predicate SliceAt(content: Bytes, events: seq<Event>, i: nat)
    requires i < |events|
  {
    var offset := |Joined(events[..i])|;
    && events[i].reply.Some? && offset + |events[i].reply.value| <= |content|
    && events[i].reply.value == content[offset..offset + |events[i].reply.value|]
  }

  lemma SliceInFront(content: Bytes, events: seq<Event>, i: nat)
    requires i < |events| - 1 && SliceAt(content, events, i)
    ensures SliceAt(content, events[..|events| - 1], i)
  {
    assert events[..|events| - 1][..i] == events[..i];
  }

  lemma PrefixGrows(content: Bytes, prefix: Bytes, n: nat)
    requires prefix <= content && |prefix| + n <= |content|
    ensures prefix + content[|prefix|..|prefix| + n] <= content
  {
  }

  lemma {:induction false} SlicesJoin(content: Bytes, events: seq<Event>)
    requires forall i :: 0 <= i < |events| ==> SliceAt(content, events, i)
    ensures Joined(events) <= content
  {
    if events != [] {
      var n := |events| - 1;
      forall i | 0 <= i < n ensures SliceAt(content, events[..n], i) {
        SliceInFront(content, events, i);
      }
      SlicesJoin(content, events[..n]);
      assert SliceAt(content, events, n);
      PrefixGrows(content, Joined(events[..n]), |events[n].reply.value|);
    }
  }

  /** A successful reading over a span in which the content stays put returns a prefix of it. */
  lemma SteadyReading(o: Oracle, s: State, fd: Fd, expected: nat, f: History, content: Bytes)
    requires ReadFile(o, s, fd, expected).outcome.Ok?
    requires Faithful(f, ReadFile(o, s, fd, expected).state.trace, fd)
    requires forall u: nat :: s.time <= u < ReadFile(o, s, fd, expected).state.time ==> f.content(u) == content
    ensures ReadFile(o, s, fd, expected).outcome.value <= content
  {
    var g := ReadExact(o.read, s.time, expected);
    ReadExactMeetsSpec(o.read, s.time, expected);
    SteadySlices(f, s.trace, fd, g, s.time, expected, content);
    SlicesJoin(content, g.events);
  }

  lemma SteadySlices(f: History, before: seq<Trace>, fd: Fd, g: Gathered, start: nat, expected: nat, content: Bytes)
    requires Stopped(g, start, expected) && SawEnd(g.events)
    requires Faithful(f, before + ReadsOf(fd, g.events), fd)
    requires forall u: nat :: start <= u < g.next ==> f.content(u) == content
    ensures forall i :: 0 <= i < |g.events| ==> SliceAt(content, g.events, i)
  {
    var trace := before + ReadsOf(fd, g.events);
    forall i | 0 <= i < |g.events| ensures SliceAt(content, g.events, i) {
      assert trace[|before| + i] == Read(fd, |Joined(g.events[..i])|, g.events[i]);
      assert Truthful(f, trace[|before| + i]);
      assert g.events[i].at == start + i;
    }
  }

  // ----- from the opening to the verification -----

  predicate ContentThroughout(f: History, bytes: Bytes, first: int, last: nat) {
    forall u: nat :: first <= u <= last ==> f.content(u) == bytes
  }

  /** From an instant to another at or after a given one, the content was these bytes. */
  ghost predicate ContentUntil(f: History, bytes: Bytes, first: int, from: nat) {
    exists last: nat :: from <= last && ContentThroughout(f, bytes, first, last)
  }

  lemma FaithfulBefore(f: History, s: seq<Trace>, t: seq<Trace>, fd: Fd)
    requires Faithful(f, t, fd) && s <= t
    ensures Faithful(f, s, fd)
  {
    forall i | 0 <= i < |s| && FdOf(s[i]) == fd ensures Truthful(f, s[i]) {
      assert s[i] == t[i];
    }
  }

  /** Two observations alike mean one content from the first to the second. */
  lemma OneContent(f: History, trace: seq<Trace>, fd: Fd, mark: Witness, i: nat, j: nat, first: nat, last: nat)
    requires WritesMoveChangeTime(f) && Faithful(f, trace, fd) && i < |trace| && j < |trace| && first <= last
    requires trace[i] == Observed(first, fd, mark) && trace[j] == Observed(last, fd, mark)
    ensures ContentThroughout(f, f.content(first), first, last) && |f.content(first)| == mark.size
  {
    assert Truthful(f, trace[i]) && Truthful(f, trace[j]);
    forall u: nat | first <= u <= last ensures f.content(u) == f.content(first) {
      assert f.ctime(first) == f.ctime(last);
    }
  }

  /** Opened and seen in a, read from m to s, seen again between d and e: the reading is the content throughout. */
  lemma StableSpan(o: Oracle, f: History, a: State, m: State, s: State, d: State, e: State, leaf: OpenedFile,
                   bytes: Bytes, maximumBytes: int)
    requires WritesMoveChangeTime(f) && Faithful(f, e.trace, leaf.fd)
    requires FileOpened(START, a, leaf, maximumBytes, SourceUnstable) && Sound(a, m)
    requires ReadFile(o, m, leaf.fd, SizeOf(leaf)) == Step(s, Ok(bytes)) && Sound(s, d) && Sound(d, e)
    requires SeenAgain(d, e, Component(leaf.fd, leaf.mark, false, SourceUnstable)) && leaf.mark.size == |bytes|
    ensures ContentUntil(f, bytes, a.time - 1, d.time)
  {
    var j: nat, last: nat :| |d.trace| <= j < |e.trace| && e.trace[j] == Observed(last, leaf.fd, leaf.mark)
                             && d.time <= last < e.time;
    var k := |a.trace| - 1;
    assert e.trace[k] == a.trace[k];
    var first := a.time - 1;
    OneContent(f, e.trace, leaf.fd, leaf.mark, k, j, first, last);
    FaithfulBefore(f, s.trace, e.trace, leaf.fd);
    SteadyReading(o, m, leaf.fd, SizeOf(leaf), f, f.content(first));
    assert bytes == f.content(first);
  }

  // ----- the whole capture -----

  /** The instant of the first observation through the descriptor of the source. */
  function FirstSeen(o: Oracle, c: Config): int {
    OpenSource(o, c).state.time - 1
  }

  /** The state in which the path verification begins. */
  function VerifyFrom(o: Oracle, c: Config, s: State, sample: Sample): State {
    VerifyModule(o, s, c.production, sample.source.context.moduleMark).state
  }

  /** How the sample was taken: opened, markers read, then the source read. */
  lemma SampleSteps(o: Oracle, c: Config) returns (m: State)
    requires TakeSample(o, c).outcome.Ok?
    ensures OpenSource(o, c).outcome.Ok?
    ensures var a, sample := OpenSource(o, c), TakeSample(o, c);
            && sample.outcome.value.source == a.outcome.value
            && FileOpened(START, a.state, a.outcome.value.leaf, c.maximumBytes, SourceUnstable) && Sound(a.state, m)
            && ReadFile(o, m, a.outcome.value.leaf.fd, SizeOf(a.outcome.value.leaf))
                 == Step(sample.state, Ok(sample.outcome.value.bytes))
  {
    var a := OpenSource(o, c);
    m := ValidateMarkers(o, a.state, a.outcome.value.context.markers).state;
  }

  /** What a bound sample establishes: the path verified from d to e, and sizes that agree. */
  lemma BoundSteps(o: Oracle, s: State, c: Config, sample: Sample, admits: Bytes -> bool) returns (e: State)
    requires BindSample(o, s, c, sample, admits).outcome.Ok?
    ensures var d := VerifyFrom(o, c, s, sample);
            && Sound(s, d) && d.components == s.components && Sound(d, e)
            && Sound(e, BindSample(o, s, c, sample, admits).state)
            && VerifyPath(o, d, sample.source.context.root) == Step(e, Ok(()))
            && sample.source.leaf.mark.size == |sample.bytes|
            && BindSample(o, s, c, sample, admits).outcome.value == sample.bytes
  {
    var d := VerifyFrom(o, c, s, sample);
    e := VerifyPath(o, d, sample.source.context.root).state;
  }

  lemma ComponentKept(a: State, m: State, s: State, d: State, leaf: OpenedFile, maximumBytes: int)
    requires FileOpened(START, a, leaf, maximumBytes, SourceUnstable) && Sound(a, m)
    requires s.components == m.components && d.components == s.components
    ensures var k := |a.components| - 1;
            0 <= k < |d.components| && d.components[k] == Component(leaf.fd, leaf.mark, false, SourceUnstable)
  {
  }

  /**
   If every write moves the change time, then whenever a sample is bound, its bytes were the whole
   content of the source at every instant from the first observation through its descriptor to the
   path verification, and equal the final reading.
   */
  lemma ContentStable(o: Oracle, c: Config, f: History, admits: Bytes -> bool, s: State, sample: Sample,
                      bound: Step<Bytes>)
    requires TakeSample(o, c) == Step(s, Ok(sample)) && BindSample(o, s, c, sample, admits) == bound
             && bound.outcome.Ok?
    requires WritesMoveChangeTime(f) && Faithful(f, bound.state.trace, sample.source.leaf.fd)
    ensures bound.outcome.value == sample.bytes
    ensures ContentUntil(f, sample.bytes, FirstSeen(o, c), VerifyFrom(o, c, s, sample).time)
  {
    var m := SampleSteps(o, c);
    var e := BoundSteps(o, s, c, sample, admits);
    SpanOfBound(o, c, f, OpenSource(o, c).state, m, s, VerifyFrom(o, c, s, sample), e, sample, bound.state,
                FirstSeen(o, c), VerifyFrom(o, c, s, sample).time);
  }

  lemma SpanOfBound(o: Oracle, c: Config, f: History, a: State, m: State, s: State, d: State, e: State, sample: Sample,
                    last: State, first: int, from: nat)
    requires first == a.time - 1 && from == d.time
    requires WritesMoveChangeTime(f) && Faithful(f, last.trace, sample.source.leaf.fd) && Sound(e, last)
    requires FileOpened(START, a, sample.source.leaf, c.maximumBytes, SourceUnstable) && Sound(a, m)
    requires ReadFile(o, m, sample.source.leaf.fd, SizeOf(sample.source.leaf)) == Step(s, Ok(sample.bytes))
    requires Sound(s, d) && d.components == s.components && Sound(d, e)
    requires VerifyPath(o, d, sample.source.context.root) == Step(e, Ok(()))
             && sample.source.leaf.mark.size == |sample.bytes|
    ensures ContentUntil(f, sample.bytes, first, from)
  {
    FaithfulBefore(f, e.trace, last.trace, sample.source.leaf.fd);
    SpanOfSteps(o, c, f, a, m, s, d, e, sample);
  }

  lemma SpanOfSteps(o: Oracle, c: Config, f: History, a: State, m: State, s: State, d: State, e: State, sample: Sample)
    requires WritesMoveChangeTime(f) && Faithful(f, e.trace, sample.source.leaf.fd)
    requires FileOpened(START, a, sample.source.leaf, c.maximumBytes, SourceUnstable) && Sound(a, m)
    requires ReadFile(o, m, sample.source.leaf.fd, SizeOf(sample.source.leaf)) == Step(s, Ok(sample.bytes))
    requires Sound(s, d) && d.components == s.components && Sound(d, e)
    requires VerifyPath(o, d, sample.source.context.root) == Step(e, Ok(()))
             && sample.source.leaf.mark.size == |sample.bytes|
    ensures ContentUntil(f, sample.bytes, a.time - 1, d.time)
  {
    ComponentKept(a, m, s, d, sample.source.leaf, c.maximumBytes);
    VerifiedSeesAgain(o, d, sample.source.context.root, |a.components| - 1);
    StableSpan(o, f, a, m, s, d, e, sample.source.leaf, sample.bytes, c.maximumBytes);
  }

  /** For the hash-bound capture: what it returns was the content, throughout. */
  lemma BoundContentStable(o: Oracle, c: Config, h: Digest, expected: Text, record: RecordContract, f: History)
    requires WritesMoveChangeTime(f) && CaptureBound(o, c, h, expected, record).outcome.Ok?
    requires TakeSample(o, c).outcome.Ok? ==>
               Faithful(f, CaptureBound(o, c, h, expected, record).state.trace,
                        TakeSample(o, c).outcome.value.source.leaf.fd)
    ensures TakeSample(o, c).outcome.Ok?
    ensures var bytes := CaptureBound(o, c, h, expected, record).outcome.value;
            && h(bytes) == expected
            && ContentUntil(f, bytes, FirstSeen(o, c),
                            VerifyFrom(o, c, TakeSample(o, c).state, TakeSample(o, c).outcome.value).time)
  {
    BoundBodySteps(o, c, h, expected, record);
    var sample := TakeSample(o, c);
    ContentStable(o, c, f, (b: Bytes) => h(b) == expected, sample.state, sample.outcome.value,
                  BindSample(o, sample.state, c, sample.outcome.value, (b: Bytes) => h(b) == expected));
  }

  lemma BoundBodySteps(o: Oracle, c: Config, h: Digest, expected: Text, record: RecordContract)
    requires CaptureBound(o, c, h, expected, record).outcome.Ok?
    ensures TakeSample(o, c).outcome.Ok? && h(TakeSample(o, c).outcome.value.bytes) == expected
    ensures var bound := BindSample(o, TakeSample(o, c).state, c, TakeSample(o, c).outcome.value,
                                    (b: Bytes) => h(b) == expected);
            && bound.outcome.Ok? && bound.outcome == CaptureBound(o, c, h, expected, record).outcome
            && bound.state.trace == CaptureBound(o, c, h, expected, record).state.trace
  {
  }

  /** For the digesting capture: the digest and the size are those of the content, throughout. */
  lemma DigestContentStable(o: Oracle, c: Config, h: Digest, f: History)
    requires WritesMoveChangeTime(f) && CaptureDigest(o, c, h).outcome.Ok?
    requires TakeSample(o, c).outcome.Ok? ==>
               Faithful(f, CaptureDigest(o, c, h).state.trace, TakeSample(o, c).outcome.value.source.leaf.fd)
    ensures TakeSample(o, c).outcome.Ok?
    ensures var bytes := TakeSample(o, c).outcome.value.bytes;
            && CaptureDigest(o, c, h).outcome.value == StableDigest(h(bytes), |bytes|)
            && ContentUntil(f, bytes, FirstSeen(o, c),
                            VerifyFrom(o, c, TakeSample(o, c).state, TakeSample(o, c).outcome.value).time)
  {
    DigestBodySteps(o, c, h);
    var sample := TakeSample(o, c);
    ContentStable(o, c, f, (b: Bytes) => true, sample.state, sample.outcome.value,
                  BindSample(o, sample.state, c, sample.outcome.value, (b: Bytes) => true));
  }

  lemma DigestBodySteps(o: Oracle, c: Config, h: Digest)
    requires CaptureDigest(o, c, h).outcome.Ok?
    ensures TakeSample(o, c).outcome.Ok?
    ensures var bound := BindSample(o, TakeSample(o, c).state, c, TakeSample(o, c).outcome.value, (b: Bytes) => true);
            && bound.outcome.Ok?
            && CaptureDigest(o, c, h).outcome == Ok(StableDigest(h(bound.outcome.value), |bound.outcome.value|))
            && bound.state.trace == CaptureDigest(o, c, h).state.trace
  {
  }
}
