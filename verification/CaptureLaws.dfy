/**
 Laws of the capture over every run: descriptors are conserved, an earlier failure is never
 masked by closing, and the hash-bound and the digesting capture agree on every trace.
 */
module CaptureLaws {
  import opened Outcomes
  import opened Texts
  import opened BoundedReaders
  import opened Descriptors
  import opened CaptureProtocol

  // ----- descriptor conservation -----

  /** Nothing is left open, and every descriptor opened was closed exactly once. */
  ghost predicate AllClosedOnce(s: State) {
    s.descriptors == [] && s.held == [] && ClosedOnce(s.opens, s.closes)
  }

  lemma ConservedAtEnd(s: State)
    requires Conserved(s) && s.descriptors == [] && s.held == []
    ensures AllClosedOnce(s)
  {
    assert multiset(s.opens) == multiset(s.closes);
    NothingRetained(s.opens, s.closes);
  }

  lemma StartConserved()
    ensures Conserved(START)
  {
  }

  /** On every run of any of the three, whatever fails, each descriptor opened is closed exactly once. */
  lemma DescriptorsConserved(o: Oracle, c: Config, h: Digest, expected: Text, record: RecordContract)
    ensures AllClosedOnce(CaptureBound(o, c, h, expected, record).state)
    ensures AllClosedOnce(CaptureDigest(o, c, h).state)
    ensures AllClosedOnce(ObserveAbsence(o, c).state)
  {
    StartConserved();
    ConservedAtEnd(CaptureBound(o, c, h, expected, record).state);
    ConservedAtEnd(CaptureDigest(o, c, h).state);
    ConservedAtEnd(ObserveAbsence(o, c).state);
  }

  // ----- failure precedence -----

  /** Some retained descriptor fails to close. */
  predicate SomeCloseFails(o: Oracle, s: State) {
    AnyFails(o.close, s.time, |s.descriptors|)
  }

  lemma {:induction false} ClosesFail(o: Oracle, s: State)
    ensures CloseAll(o, s).1 <==> SomeCloseFails(o, s)
    decreases |s.descriptors|
  {
    if s.descriptors != [] {
      ClosesFail(o, CloseLast(s));
      FirstOrLater(o.close, s.time, |s.descriptors|);
    }
  }

  lemma {:induction false} ClosesReversed(o: Oracle, s: State)
    ensures CloseAll(o, s).0.closes == s.closes + Reversed(s.descriptors)
    decreases |s.descriptors|
  {
    if s.descriptors == [] {
      assert s.closes + Reversed(s.descriptors) == s.closes;
    } else {
      ClosesReversed(o, CloseLast(s));
      Regroup3(s.closes, [s.descriptors[|s.descriptors| - 1]], Reversed(s.descriptors[..|s.descriptors| - 1]));
    }
  }

  function Reversed(fds: seq<Fd>): seq<Fd> {
    if fds == [] then [] else [fds[|fds| - 1]] + Reversed(fds[..|fds| - 1])
  }

  /**
   Closing happens in reverse order and never masks what went wrong before it: the outcome is
   the body's own, except that a close failure is reported when the body succeeded.
   */
  lemma ClosingNeverMasks<T>(o: Oracle, body: Step<T>)
    ensures var r := Finish(o, body);
            && (body.outcome.Err? ==> r.outcome == body.outcome)
            && (body.outcome.Ok? ==>
                  r.outcome == if SomeCloseFails(o, body.state) then Err(DescriptorCloseFailed) else body.outcome)
            && r.state.closes == body.state.closes + Reversed(body.state.descriptors)
  {
    ClosesFail(o, body.state);
    ClosesReversed(o, body.state);
  }

  /** The final descriptor was opened, and its inheritance was unknown or set, so it was closed at once. */
  predicate Dropped(o: Oracle, s: State) {
    o.openFinal(s.time).FinalOpened? && o.inheritable(s.time + 1) != Some(false)
  }

  /** What is then reported. */
  function DropFailure(o: Oracle, s: State): Failure {
    if o.close(s.time + 2) then PrimitivesUnavailable else DescriptorCloseFailed
  }

  /** And that close failed. */
  predicate DroppedBadly(o: Oracle, s: State) {
    Dropped(o, s) && !o.close(s.time + 2)
  }

  /** The state in which the final open happens, if the sample is bound and the whole path verified. */
  function FinalFrom(o: Oracle, s: State, c: Config, sample: Sample): Option<State> {
    var moduleBound := VerifyModule(o, s, c.production, sample.source.context.moduleMark);
    if moduleBound.outcome.Err? || sample.source.leaf.mark.size != |sample.bytes| || |sample.bytes| > c.maximumBytes
    then None
    else
      var verified := VerifyPath(o, moduleBound.state, sample.source.context.root);
      if verified.outcome.Err? then None else Some(verified.state)
  }

  /** The state in which the final descriptor is closed, if it was kept and the reading through it went well. */
  function WellRead(o: Oracle, s: State, leaf: OpenedFile, initial: Bytes, maximumBytes: int, admits: Bytes -> bool)
    : Option<State>
  {
    var open := OpenFinal(o, s);
    if open.outcome.Err? then None
    else
      var body := FinalBody(o, open.state, open.outcome.value, leaf, initial, maximumBytes, admits);
      if body.outcome.Err? then None else Some(body.state)
  }

  lemma OpenFinalOutcome(o: Oracle, s: State)
    ensures Dropped(o, s) ==> OpenFinal(o, s).outcome == Err(DropFailure(o, s))
    ensures OpenFinal(o, s).outcome == Err(DescriptorCloseFailed) <==> DroppedBadly(o, s)
  {
  }

  /** The final reading by its steps: well read and well closed, dropped, or failed for another reason. */
  lemma FinalReadOutcome(o: Oracle, s: State, leaf: OpenedFile, initial: Bytes, maximumBytes: int,
                         admits: Bytes -> bool)
    ensures var r, well := FinalRead(o, s, leaf, initial, maximumBytes, admits),
                           WellRead(o, s, leaf, initial, maximumBytes, admits);
            && (r.outcome == Err(DescriptorCloseFailed) <==>
                  DroppedBadly(o, s) || (well.Some? && !o.close(well.value.time)))
            && (r.outcome.Ok? <==> well.Some? && o.close(well.value.time))
            && (well.Some? ==> r.state.time == well.value.time + 1 && r.state.descriptors == well.value.descriptors)
            && (Dropped(o, s) ==> r.outcome == Err(DropFailure(o, s)))
  {
    OpenFinalOutcome(o, s);
    var open := OpenFinal(o, s);
    if open.outcome.Ok? {
      ClosedAfter(o, s, FinalBody(o, open.state, open.outcome.value, leaf, initial, maximumBytes, admits));
    }
  }

  lemma ClosedAfter(o: Oracle, s: State, body: Step<Bytes>)
    requires body.state.held != [] && Unclosed(body)
    ensures var t := CloseHeld(body.state); t.time == body.state.time + 1 && t.descriptors == body.state.descriptors
    ensures body.outcome != Err(DescriptorCloseFailed)
  {
  }

  /** The final descriptor's close, and after it those of the retained ones: some of them fails. */
  predicate LastClosesFail(o: Oracle, t: State) {
    AnyFails(o.close, t.time, 1 + |t.descriptors|)
  }

  /** The two reasons for a close failure, from the state of the final open on. */
  predicate ClosesBadly(o: Oracle, v: State, c: Config, sample: Sample, admits: Bytes -> bool) {
    || DroppedBadly(o, v)
    || (var well := WellRead(o, v, sample.source.leaf, sample.bytes, c.maximumBytes, admits);
        well.Some? && LastClosesFail(o, well.value))
  }

  /** A close failure was reported, or will be. */
  predicate Badly(o: Oracle, r: Step<Bytes>) {
    r.outcome == Err(DescriptorCloseFailed) || (r.outcome.Ok? && SomeCloseFails(o, r.state))
  }

  /** Binding a sample and closing everything, in one. */
  lemma BoundAndClosed(o: Oracle, s: State, c: Config, sample: Sample, admits: Bytes -> bool)
    ensures var r, v := BindSample(o, s, c, sample, admits), FinalFrom(o, s, c, sample);
            && (Badly(o, r) <==> v.Some? && ClosesBadly(o, v.value, c, sample, admits))
            && (v.Some? && Dropped(o, v.value) ==> r.outcome == Err(DropFailure(o, v.value)))
  {
    var v := FinalFrom(o, s, c, sample);
    if v.Some? {
      FinalReadOutcome(o, v.value, sample.source.leaf, sample.bytes, c.maximumBytes, admits);
      var well := WellRead(o, v.value, sample.source.leaf, sample.bytes, c.maximumBytes, admits);
      if well.Some? {
        FirstOrLater(o.close, well.value.time, 1 + |well.value.descriptors|);
      }
    }
  }

  /** What ends a capture, as far as failures and states go. */
  predicate Alike<T>(r: Step<Bytes>, body: Step<T>) {
    body.state == r.state && match r.outcome case Ok(_) => body.outcome.Ok? case Err(e) => body.outcome == Err(e)
  }

  lemma FinishAlike<T>(o: Oracle, r: Step<Bytes>, body: Step<T>)
    requires Alike(r, body)
    ensures Finish(o, body).outcome == Err(DescriptorCloseFailed) <==> Badly(o, r)
    ensures r.outcome.Err? ==> Finish(o, body).outcome == Err(r.outcome.error)
  {
    ClosingNeverMasks(o, body);
  }

  lemma FinishCloseFailure<T>(o: Oracle, body: Step<T>)
    ensures Finish(o, body).outcome == Err(DescriptorCloseFailed)
       <==> (body.outcome.Ok? && SomeCloseFails(o, body.state)) || body.outcome == Err(DescriptorCloseFailed)
  {
    ClosingNeverMasks(o, body);
  }

  lemma DigestAlike(o: Oracle, c: Config, h: Digest)
    requires TakeSample(o, c).outcome.Ok?
    ensures Alike(BindSample(o, TakeSample(o, c).state, c, TakeSample(o, c).outcome.value, (b: Bytes) => true),
                  DigestBody(o, c, h))
  {
  }

  lemma BoundAlike(o: Oracle, c: Config, h: Digest, expected: Text, record: RecordContract)
    requires TakeSample(o, c).outcome.Ok?
    requires h(TakeSample(o, c).outcome.value.bytes) == expected && record(TakeSample(o, c).outcome.value.bytes)
    ensures Alike(BindSample(o, TakeSample(o, c).state, c, TakeSample(o, c).outcome.value,
                             (b: Bytes) => h(b) == expected),
                  BoundBody(o, c, h, expected, record))
  {
  }

  /** Where the final open happens in the digesting capture. */
  function DigestFinalFrom(o: Oracle, c: Config): Option<State> {
    var sample := TakeSample(o, c);
    if sample.outcome.Err? then None else FinalFrom(o, sample.state, c, sample.outcome.value)
  }

  /** And in the hash-bound one, which first requires the digest and the record of the sample. */
  function BoundFinalFrom(o: Oracle, c: Config, h: Digest, expected: Text, record: RecordContract): Option<State> {
    var sample := TakeSample(o, c);
    if sample.outcome.Ok? && h(sample.outcome.value.bytes) == expected && record(sample.outcome.value.bytes)
    then FinalFrom(o, sample.state, c, sample.outcome.value) else None
  }

  /**
   When the digesting capture reports a close failure: the path was verified, and then either the
   final descriptor was dropped and that close failed, or the final reading went well in every
   other way and one of the closes after it failed. So a close failure outranks an earlier failure
   in the first case and in no other.
   */
  lemma CloseFailureExactly(o: Oracle, c: Config, h: Digest)
    requires c.primitives
    ensures CaptureDigest(o, c, h).outcome == Err(DescriptorCloseFailed)
       <==> DigestFinalFrom(o, c).Some?
            && ClosesBadly(o, DigestFinalFrom(o, c).value, c, TakeSample(o, c).outcome.value, (b: Bytes) => true)
  {
    var sample := TakeSample(o, c);
    if sample.outcome.Ok? {
      BoundAndClosed(o, sample.state, c, sample.outcome.value, (b: Bytes) => true);
      DigestAlike(o, c, h);
      FinishAlike(o, BindSample(o, sample.state, c, sample.outcome.value, (b: Bytes) => true), DigestBody(o, c, h));
    } else {
      FinishCloseFailure(o, DigestBody(o, c, h));
    }
  }

  /** The hash-bound capture reports one for the same two reasons. */
  lemma BoundCloseFailureExactly(o: Oracle, c: Config, h: Digest, expected: Text, record: RecordContract)
    requires c.primitives
    ensures CaptureBound(o, c, h, expected, record).outcome == Err(DescriptorCloseFailed)
       <==> BoundFinalFrom(o, c, h, expected, record).Some?
            && ClosesBadly(o, BoundFinalFrom(o, c, h, expected, record).value, c, TakeSample(o, c).outcome.value,
                           (b: Bytes) => h(b) == expected)
  {
    var sample := TakeSample(o, c);
    if sample.outcome.Ok? && h(sample.outcome.value.bytes) == expected && record(sample.outcome.value.bytes) {
      BoundAndClosed(o, sample.state, c, sample.outcome.value, (b: Bytes) => h(b) == expected);
      BoundAlike(o, c, h, expected, record);
      FinishAlike(o, BindSample(o, sample.state, c, sample.outcome.value, (b: Bytes) => h(b) == expected),
                  BoundBody(o, c, h, expected, record));
    } else {
      FinishCloseFailure(o, BoundBody(o, c, h, expected, record));
    }
  }

  /**
   A dropped final descriptor is a failure of its own, whatever later closes do; and its close,
   when that fails, is what is reported in its stead.
   */
  lemma DroppedOutcome(o: Oracle, c: Config, h: Digest, v: State)
    requires c.primitives && DigestFinalFrom(o, c) == Some(v) && Dropped(o, v)
    ensures CaptureDigest(o, c, h).outcome == Err(DropFailure(o, v))
  {
    var sample := TakeSample(o, c);
    BoundAndClosed(o, sample.state, c, sample.outcome.value, (b: Bytes) => true);
    DigestAlike(o, c, h);
    FinishAlike(o, BindSample(o, sample.state, c, sample.outcome.value, (b: Bytes) => true), DigestBody(o, c, h));
  }

  lemma BoundDroppedOutcome(o: Oracle, c: Config, h: Digest, expected: Text, record: RecordContract, v: State)
    requires c.primitives && BoundFinalFrom(o, c, h, expected, record) == Some(v) && Dropped(o, v)
    ensures CaptureBound(o, c, h, expected, record).outcome == Err(DropFailure(o, v))
  {
    var sample := TakeSample(o, c);
    BoundAndClosed(o, sample.state, c, sample.outcome.value, (b: Bytes) => h(b) == expected);
    BoundAlike(o, c, h, expected, record);
    FinishAlike(o, BindSample(o, sample.state, c, sample.outcome.value, (b: Bytes) => h(b) == expected),
                BoundBody(o, c, h, expected, record));
  }

  /** The absence check never reports one unless everything else went well. */
  lemma AbsenceCloseFailureExactly(o: Oracle, c: Config)
    requires c.primitives && c.path != [] && forall i :: 0 <= i < |c.path| ==> !BadComponent(c.path[i])
    ensures ObserveAbsence(o, c).outcome == Err(DescriptorCloseFailed)
       <==> AbsenceBody(o, c).outcome.Ok? && SomeCloseFails(o, AbsenceBody(o, c).state)
  {
    FinishCloseFailure(o, AbsenceBody(o, c));
  }

  // ----- the two reading captures agree -----

  lemma BoundFinalSame(o: Oracle, s: State, fd: Fd, leaf: OpenedFile, initial: Bytes, maximumBytes: int,
                       p: Bytes -> bool, q: Bytes -> bool)
    requires p(initial) && q(initial)
    ensures FinalBody(o, s, fd, leaf, initial, maximumBytes, p) == FinalBody(o, s, fd, leaf, initial, maximumBytes, q)
  {
  }

  lemma FinalReadSame(o: Oracle, s: State, leaf: OpenedFile, initial: Bytes, maximumBytes: int,
                      p: Bytes -> bool, q: Bytes -> bool)
    requires p(initial) && q(initial)
    ensures FinalRead(o, s, leaf, initial, maximumBytes, p) == FinalRead(o, s, leaf, initial, maximumBytes, q)
  {
    var open := OpenFinal(o, s);
    if open.outcome.Ok? {
      BoundFinalSame(o, open.state, open.outcome.value, leaf, initial, maximumBytes, p, q);
    }
  }

  lemma SnapshotSame(o: Oracle, s: State, root: Root, leaf: OpenedFile, initial: Bytes, maximumBytes: int,
                     p: Bytes -> bool, q: Bytes -> bool)
    requires p(initial) && q(initial)
    ensures FinalSnapshot(o, s, root, leaf, initial, maximumBytes, p)
            == FinalSnapshot(o, s, root, leaf, initial, maximumBytes, q)
  {
    FinalReadSame(o, VerifyPath(o, s, root).state, leaf, initial, maximumBytes, p, q);
  }

  lemma BindSame(o: Oracle, s: State, c: Config, sample: Sample, p: Bytes -> bool, q: Bytes -> bool)
    requires p(sample.bytes) && q(sample.bytes)
    ensures BindSample(o, s, c, sample, p) == BindSample(o, s, c, sample, q)
  {
    var moduleBound := VerifyModule(o, s, c.production, sample.source.context.moduleMark);
    SnapshotSame(o, moduleBound.state, sample.source.context.root, sample.source.leaf, sample.bytes, c.maximumBytes, p,
                 q);
  }

  /** The bodies agree in state and outcome once the digest is the expected one and the record is met. */
  lemma BodiesAgree(o: Oracle, c: Config, h: Digest, expected: Text, record: RecordContract)
    ensures var bound, digest, sample := BoundBody(o, c, h, expected, record), DigestBody(o, c, h),
                                         TakeSample(o, c).outcome;
            && (bound.outcome.Ok? ==> digest.state == bound.state && sample.Ok? && record(sample.value.bytes)
                                      && bound.outcome.value == sample.value.bytes
                                      && digest.outcome == Ok(StableDigest(expected, |bound.outcome.value|)))
            && (digest.outcome.Ok? ==> sample.Ok? && |sample.value.bytes| <= c.maximumBytes
                                       && digest.outcome.value
                                          == StableDigest(h(sample.value.bytes), |sample.value.bytes|))
            && (digest.outcome.Ok? && digest.outcome.value.sha256 == expected && record(sample.value.bytes) ==>
                  bound.state == digest.state && bound.outcome == Ok(sample.value.bytes))
  {
    var sample := TakeSample(o, c);
    if sample.outcome.Ok? && h(sample.outcome.value.bytes) == expected {
      BindSame(o, sample.state, c, sample.outcome.value, (b: Bytes) => h(b) == expected, (b: Bytes) => true);
    }
  }

  /**
   On the same trace of answers, the hash-bound capture with an expected digest succeeds exactly
   when the stable digest comes out as that digest and the bytes meet their record; and then they
   saw equally many bytes.
   */
  lemma BoundExactly(o: Oracle, c: Config, h: Digest, expected: Text, record: RecordContract)
    ensures var bound, digest := CaptureBound(o, c, h, expected, record).outcome, CaptureDigest(o, c, h).outcome;
            && (digest.Ok? ==> TakeSample(o, c).outcome.Ok? && |TakeSample(o, c).outcome.value.bytes| <= c.maximumBytes)
            && (bound.Ok?
                <==> digest.Ok? && digest.value.sha256 == expected && record(TakeSample(o, c).outcome.value.bytes))
            && (bound.Ok? ==> bound.value == TakeSample(o, c).outcome.value.bytes && h(bound.value) == expected
                              && |bound.value| == digest.value.size)
  {
    if c.primitives {
      BodiesAgree(o, c, h, expected, record);
      var bound, digest := BoundBody(o, c, h, expected, record), DigestBody(o, c, h);
      ClosingNeverMasks(o, bound);
      ClosingNeverMasks(o, digest);
    }
  }

  /**
   A record check of digest and size asks nothing of bytes that have the expected digest and are
   within the bound, so with one the digest alone decides.
   */
  lemma BoundMeetsDigest(o: Oracle, c: Config, h: Digest, expected: Text, record: RecordContract)
    requires forall b :: h(b) == expected && |b| <= c.maximumBytes ==> record(b)
    ensures var bound, digest := CaptureBound(o, c, h, expected, record).outcome, CaptureDigest(o, c, h).outcome;
            && (bound.Ok? <==> digest.Ok? && digest.value.sha256 == expected)
            && (bound.Ok? ==> h(bound.value) == expected && |bound.value| == digest.value.size)
  {
    BoundExactly(o, c, h, expected, record);
    if CaptureDigest(o, c, h).outcome.Ok? {
      DigestOfSample(o, c, h);
    }
  }

  lemma DigestOfSample(o: Oracle, c: Config, h: Digest)
    requires CaptureDigest(o, c, h).outcome.Ok?
    ensures TakeSample(o, c).outcome.Ok?
    ensures CaptureDigest(o, c, h).outcome.value.sha256 == h(TakeSample(o, c).outcome.value.bytes)
  {
    ClosingNeverMasks(o, DigestBody(o, c, h));
  }
}
