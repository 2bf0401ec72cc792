/**
 The capture as it runs: descriptor and component lists that grow in place, loops that read,
 observe and close, and a pending failure that closing must not mask (mmi/source_capture.py).
 Every method is proved to do what the protocol says.
 */
module CaptureSession {
  import opened Outcomes
  import opened Texts
  import opened BoundedReaders
  import opened Descriptors
  import opened CaptureProtocol

  class Capture {
    const o: Oracle
    var time: nat
    var descriptors: seq<Fd>
    var held: seq<Fd>
    var components: seq<Component>
    ghost var opens: seq<Fd>
    ghost var closes: seq<Fd>
    ghost var trace: seq<Trace>

    ghost function Now(): (s: State)
      reads this
    {
      State(time, descriptors, held, components, opens, closes, trace)
    }

    constructor (oracle: Oracle)
      ensures o == oracle && Now() == START
    {
      o := oracle;
      time := 0;
      descriptors := [];
      held := [];
      components := [];
      opens := [];
      closes := [];
      trace := [];
    }

    // ----- single calls -----

    method EntryStat(missing: Failure) returns (r: Result<Witness, Failure>)
      modifies this
      ensures var s := CaptureProtocol.EntryStat(o, old(Now()), missing); Now() == s.state && r == s.outcome
    {
      var answer := o.stat(time);
      time := time + 1;
      match answer {
        case Ok(w) => return Ok(w);
        case Err(e) =>
          if e.NoEntry? {
            return Err(missing);
          }
          return Err(if e.LinkLoop? then SymlinkRejected else SourceUnreadable);
      }
    }

    method Fstat(fd: Fd) returns (r: Result<Witness, Failure>)
      modifies this
      ensures var s := CaptureProtocol.Fstat(o, old(Now()), fd); Now() == s.state && r == s.outcome
    {
      var answer := o.fstat(time);
      if answer.None? {
        time := time + 1;
        return Err(SourceUnreadable);
      }
      trace := trace + [Observed(time, fd, answer.value)];
      time := time + 1;
      return Ok(answer.value);
    }

    method OpenRelative(unstable: Failure) returns (r: Result<Fd, Failure>)
      modifies this
      ensures var s := CaptureProtocol.OpenRelative(o, old(Now()), unstable); Now() == s.state && r == s.outcome
    {
      var answer := o.open(time);
      var fd := time;
      time := time + 1;
      if answer.Some? {
        return Err(if answer.value.OtherErrno? then SourceUnreadable else unstable);
      }
      descriptors := descriptors + [fd];
      opens := opens + [fd];
      return Ok(fd);
    }

    // ----- opening components -----

    method OpenDirectoryComponent(missing: Failure) returns (r: Result<Fd, Failure>)
      modifies this
      ensures var s := OpenDirectory(o, old(Now()), missing); Now() == s.state && r == s.outcome
    {
      var entry := EntryStat(missing);
      if entry.Err? {
        return Err(entry.error);
      }
      if entry.value.kind.SymbolicLink? {
        return Err(SymlinkRejected);
      }
      if !entry.value.kind.Directory? {
        return Err(IntermediateNotDirectory);
      }
      var fd := OpenRelative(PathUnstable);
      if fd.Err? {
        return fd;
      }
      var shown := Fstat(fd.value);
      if shown.Err? {
        return Err(shown.error);
      }
      if !shown.value.kind.Directory? {
        return Err(IntermediateNotDirectory);
      }
      if !SameDirectory(entry.value, shown.value) {
        return Err(PathUnstable);
      }
      components := components + [Component(fd.value, shown.value, true, PathUnstable)];
      return fd;
    }

    method OpenRegularComponent(maximumBytes: int, missing: Failure,
                                unstable: Failure) returns (r: Result<OpenedFile, Failure>)
      modifies this
      ensures var s := OpenRegular(o, old(Now()), maximumBytes, missing, unstable); Now() == s.state && r == s.outcome
    {
      var entry := EntryStat(missing);
      if entry.Err? {
        return Err(entry.error);
      }
      var named := entry.value;
      if named.kind.SymbolicLink? {
        return Err(SymlinkRejected);
      }
      if !named.kind.RegularFile? {
        return Err(NotRegularFile);
      }
      if named.size < 0 {
        return Err(SizeInvalid);
      }
      if named.size > maximumBytes {
        return Err(Oversized);
      }
      var fd := OpenRelative(unstable);
      if fd.Err? {
        return Err(fd.error);
      }
      var shown := Fstat(fd.value);
      if shown.Err? {
        return Err(shown.error);
      }
      if !shown.value.kind.RegularFile? {
        return Err(NotRegularFile);
      }
      if named != shown.value {
        if unstable.SourceUnstable? && SameIdentity(named, shown.value) {
          return Err(SourceUnstable);
        }
        return Err(PathUnstable);
      }
      components := components + [Component(fd.value, shown.value, false, unstable)];
      return Ok(OpenedFile(fd.value, shown.value));
    }

    method OpenDirectoryComponents(names: seq<string>, missing: Failure,
                                   rootNames: bool) returns (r: Result<(), Failure>)
      modifies this
      ensures var s := OpenDirectories(o, old(Now()), names, missing, rootNames); Now() == s.state && r == s.outcome
    {
      ghost var start := Now();
      assert names[0..] == names;
      for k := 0 to |names|
        invariant OpenDirectories(o, start, names, missing, rootNames)
               == OpenDirectories(o, Now(), names[k..], missing, rootNames)
      {
        assert names[k..][0] == names[k] && names[k..][1..] == names[k + 1..];
        if rootNames && BadName(names[k]) {
          return Err(RepositoryRootUnavailable);
        }
        var fd := OpenDirectoryComponent(missing);
        if fd.Err? {
          return Err(fd.error);
        }
      }
      return Ok(());
    }

    method OpenFixedRegularPath(path: seq<string>, maximumBytes: int, missing: Failure, unstable: Failure)
      returns (r: Result<OpenedFile, Failure>)
      modifies this
      ensures var s := OpenFixedPath(o, old(Now()), path, maximumBytes, missing, unstable);
              Now() == s.state && r == s.outcome
    {
      if path == [] || exists i :: 0 <= i < |path| && BadComponent(path[i]) {
        return Err(InternalInvariantFailed);
      }
      var walked := OpenDirectoryComponents(path[..|path| - 1], missing, false);
      if walked.Err? {
        return Err(walked.error);
      }
      r := OpenRegularComponent(maximumBytes, missing, unstable);
    }

    method OpenRoot() returns (r: Result<Fd, Failure>)
      modifies this
      ensures var s := OpenRootDirectory(o, old(Now())); Now() == s.state && r == s.outcome
    {
      var answer := o.open(time);
      var fd := time;
      time := time + 1;
      if answer.Some? {
        var e := answer.value;
        return Err(if e.LinkLoop? || e.NotDirectory? then SymlinkRejected else RepositoryRootUnavailable);
      }
      descriptors := descriptors + [fd];
      opens := opens + [fd];
      return Ok(fd);
    }

    method OpenRootAnchor() returns (r: Result<Root, Failure>)
      modifies this
      ensures var s := OpenAnchor(o, old(Now())); Now() == s.state && r == s.outcome
    {
      var fd := OpenRoot();
      if fd.Err? {
        return Err(fd.error);
      }
      var entry := o.stat(time);
      time := time + 1;
      if entry.Err? {
        return Err(RepositoryRootUnavailable);
      }
      var shown := Fstat(fd.value);
      if shown.Err? {
        return Err(shown.error);
      }
      if !SameDirectory(entry.value, shown.value) {
        return Err(PathUnstable);
      }
      return Ok(Root(fd.value, shown.value));
    }

    method OpenAbsoluteRepositoryRoot(root: RepositoryRoot) returns (r: Result<Root, Failure>)
      modifies this
      ensures var s := OpenRepositoryRoot(o, old(Now()), root); Now() == s.state && r == s.outcome
    {
      if !root.absolute {
        return Err(RepositoryRootUnavailable);
      }
      var anchor := OpenRootAnchor();
      if anchor.Err? {
        return anchor;
      }
      var walked := OpenDirectoryComponents(root.parts, RepositoryRootUnavailable, true);
      if walked.Err? {
        return Err(walked.error);
      }
      return anchor;
    }

    method OpenTrustedRepositoryContext(root: RepositoryRoot, production: bool, markers: seq<Marker>)
      returns (r: Result<Context, Failure>)
      modifies this
      ensures var s := OpenContext(o, old(Now()), root, production, markers); Now() == s.state && r == s.outcome
    {
      var anchor := OpenAbsoluteRepositoryRoot(root);
      if anchor.Err? {
        return Err(anchor.error);
      }
      if !production {
        return Ok(Context(anchor.value, [], None));
      }
      ghost var start := Now();
      var materials: seq<OpenedMarker> := [];
      assert markers[0..] == markers;
      for k := 0 to |markers|
        invariant OpenMarkers(o, start, markers, []) == OpenMarkers(o, Now(), markers[k..], materials)
      {
        assert markers[k..][0] == markers[k] && markers[k..][1..] == markers[k + 1..];
        var file := OpenFixedRegularPath(markers[k].path, markers[k].maximumBytes, RepositoryMarkerInvalid,
                                         PathUnstable);
        if file.Err? {
          return Err(file.error);
        }
        materials := materials + [OpenedMarker(markers[k], file.value)];
      }
      if ModuleOf(materials).None? {
        return Err(InternalInvariantFailed);
      }
      return Ok(Context(anchor.value, materials, ModuleOf(materials)));
    }

    // ----- reading -----

    method ReadBounded(fd: Fd, expected: nat) returns (r: Result<Bytes, Failure>)
      modifies this
      ensures var s := ReadFile(o, old(Now()), fd, expected); Now() == s.state && r == s.outcome
    {
      var outcome, events, next := ReadExactBounded(o.read, time, expected);
      trace := trace + ReadsOf(fd, events);
      time := next;
      match outcome {
        case Ok(bytes) => return Ok(bytes);
        case Err(f) => return Err(ReadFailureOf(f));
      }
    }

    method ValidateMarkerMaterials(markers: seq<OpenedMarker>) returns (r: Result<(), Failure>)
      modifies this
      ensures var s := ValidateMarkers(o, old(Now()), markers); Now() == s.state && r == s.outcome
    {
      ghost var start := Now();
      assert markers[0..] == markers;
      for k := 0 to |markers|
        invariant ValidateMarkers(o, start, markers) == ValidateMarkers(o, Now(), markers[k..])
      {
        assert markers[k..][0] == markers[k] && markers[k..][1..] == markers[k + 1..];
        var bytes := ReadBounded(markers[k].file.fd, SizeOf(markers[k].file));
        if bytes.Err? {
          return Err(bytes.error);
        }
        if !MarkerAccepts(markers[k].marker, bytes.value) {
          return Err(RepositoryMarkerInvalid);
        }
      }
      return Ok(());
    }

    method VerifyModuleLexicalBinding(production: bool, moduleMark: Option<Witness>) returns (r: Result<(), Failure>)
      modifies this
      ensures var s := VerifyModule(o, old(Now()), production, moduleMark); Now() == s.state && r == s.outcome
    {
      if !production {
        return Ok(());
      }
      if moduleMark.None? {
        return Err(InternalInvariantFailed);
      }
      var lexical := o.stat(time);
      time := time + 1;
      if lexical.Err? {
        return Err(RepositoryRootUntrusted);
      }
      if lexical.value.kind.SymbolicLink? || lexical.value != moduleMark.value {
        return Err(RepositoryRootUntrusted);
      }
      return Ok(());
    }

    // ----- verifying -----

    method ObserveOne(c: Component) returns (verdict: Verdict)
      modifies this
      ensures var s := ObserveComponent(o, old(Now()), c); Now() == s.0 && verdict == s.1
      ensures components == old(components)
    {
      var entry := o.stat(time);
      time := time + 1;
      var shown := Fstat(c.fd);
      verdict := Judge(c, Shown(entry), match shown case Ok(w) => Some(w) case Err(_) => None);
    }

    method ObserveRootEntry(root: Root) returns (unstable: bool)
      modifies this
      ensures (Now(), Verdict(unstable, false)) == ObserveRoot(o, old(Now()), root) && components == old(components)
    {
      var entry := Shown(o.stat(time));
      time := time + 1;
      var shown := Fstat(root.fd);
      if entry.None? || shown.Err? {
        return true;
      }
      return !SameDirectory(entry.value, root.mark) || !SameDirectory(shown.value, root.mark);
    }

    method VerifyCompleteOpenedPath(root: Root) returns (r: Result<(), Failure>)
      modifies this
      ensures var s := VerifyPath(o, old(Now()), root); Now() == s.state && r == s.outcome
    {
      var rootUnstable := ObserveRootEntry(root);
      var pathUnstable, sourceUnstable := rootUnstable, false;
      ghost var start := Now();
      ghost var atRoot := Verdict(pathUnstable, sourceUnstable);
      var recorded := components;
      for k := 0 to |recorded|
        invariant components == recorded
        invariant ObserveComponents(o, start, recorded, 0, atRoot)
               == ObserveComponents(o, Now(), recorded, k, Verdict(pathUnstable, sourceUnstable))
      {
        var verdict := ObserveOne(recorded[k]);
        pathUnstable := pathUnstable || verdict.pathUnstable;
        sourceUnstable := sourceUnstable || verdict.sourceUnstable;
      }
      if pathUnstable {
        return Err(PathUnstable);
      }
      if sourceUnstable {
        return Err(SourceUnstable);
      }
      return Ok(());
    }

    // ----- the final reading -----

    method OpenCompleteFixedSourcePath() returns (r: Result<Fd, Failure>)
      modifies this
      ensures var s := OpenFinal(o, old(Now())); Now() == s.state && r == s.outcome
    {
      var answer := o.openFinal(time);
      var fd := time;
      time := time + 1;
      match answer {
        case FinalUnavailable => return Err(PrimitivesUnavailable);
        case FinalPathRefused => return Err(PathUnstable);
        case FinalOther => return Err(SourceUnreadable);
        case FinalOpened =>
      }
      held := held + [fd];
      opens := opens + [fd];
      var inheritable := o.inheritable(time);
      time := time + 1;
      if inheritable != Some(false) {
        var closedWell := CloseLastHeld();
        return Err(if closedWell then PrimitivesUnavailable else DescriptorCloseFailed);
      }
      return Ok(fd);
    }

    method CloseLastHeld() returns (closedWell: bool)
      requires held != []
      modifies this
      ensures Now() == CloseHeld(old(Now())) && closedWell == o.close(old(time))
    {
      closedWell := o.close(time);
      closes := closes + [held[|held| - 1]];
      held := held[..|held| - 1];
      time := time + 1;
    }

    method RewindAndRead(fd: Fd, size: nat) returns (r: Result<Bytes, Failure>)
      modifies this
      ensures var s := Reread(o, old(Now()), fd, size); Now() == s.state && r == s.outcome
    {
      var rewound := o.seek(time);
      time := time + 1;
      if !rewound {
        return Err(SourceUnstable);
      }
      r := ReadBounded(fd, size);
      if r.Err? {
        return Err(SourceUnstable);
      }
    }

    method ReadThroughFinal(fd: Fd, leaf: OpenedFile, initial: Bytes, maximumBytes: int, admits: Bytes -> bool)
      returns (r: Result<Bytes, Failure>)
      modifies this
      ensures var s := FinalBody(o, old(Now()), fd, leaf, initial, maximumBytes, admits);
              Now() == s.state && r == s.outcome
    {
      var before := Fstat(fd);
      if before.Err? {
        return Err(before.error);
      }
      if !StillBound(before.value, leaf.mark) {
        return Err(PathUnstable);
      }
      var bytes := RewindAndRead(fd, |initial|);
      if bytes.Err? {
        return bytes;
      }
      var after := Fstat(fd);
      if after.Err? || !StillBound(after.value, leaf.mark) {
        return Err(PathUnstable);
      }
      return FinalVerdict(bytes.value, after.value.size, leaf, initial, maximumBytes, admits);
    }

    method CaptureFinalBoundSourceSnapshot(root: Root, leaf: OpenedFile, initial: Bytes, maximumBytes: int,
                                           admits: Bytes -> bool) returns (r: Result<Bytes, Failure>)
      modifies this
      ensures var s := FinalSnapshot(o, old(Now()), root, leaf, initial, maximumBytes, admits);
              Now() == s.state && r == s.outcome
    {
      if leaf.mark.size != |initial| || |initial| > maximumBytes {
        return Err(InternalInvariantFailed);
      }
      var verified := VerifyCompleteOpenedPath(root);
      if verified.Err? {
        return Err(verified.error);
      }
      var finalFd := OpenCompleteFixedSourcePath();
      if finalFd.Err? {
        return Err(finalFd.error);
      }
      var pending: Option<Failure> := None;
      var snapshot := ReadThroughFinal(finalFd.value, leaf, initial, maximumBytes, admits);
      if snapshot.Err? {
        pending := Some(snapshot.error);
      }
      var closedWell := CloseLastHeld();
      if !closedWell && pending.None? {
        pending := Some(DescriptorCloseFailed);
      }
      if pending.Some? {
        return Err(pending.value);
      }
      return snapshot;
    }

    // ----- closing -----

    method CloseLastRetained() returns (closedWell: bool)
      requires descriptors != []
      modifies this
      ensures Now() == CloseLast(old(Now())) && closedWell == o.close(old(time))
    {
      closedWell := o.close(time);
      closes := closes + [descriptors[|descriptors| - 1]];
      descriptors := descriptors[..|descriptors| - 1];
      time := time + 1;
    }

    method CloseAllDescriptors() returns (closeFailed: bool)
      modifies this
      ensures var s := CloseAll(o, old(Now())); Now() == s.0 && closeFailed == s.1
    {
      ghost var start := Now();
      closeFailed := false;
      while descriptors != []
        invariant CloseAll(o, start) == (CloseAll(o, Now()).0, closeFailed || CloseAll(o, Now()).1)
        decreases |descriptors|
      {
        var closedWell := CloseLastRetained();
        closeFailed := closeFailed || !closedWell;
      }
    }

    // ----- the three captures -----

    method TakeFirstSample(c: Config) returns (r: Result<Sample, Failure>)
      requires Now() == START
      modifies this
      ensures var s := TakeSample(o, c); Now() == s.state && r == s.outcome
    {
      var context := OpenTrustedRepositoryContext(c.root, c.production, c.markers);
      if context.Err? {
        return Err(context.error);
      }
      var leaf := OpenFixedRegularPath(c.path, c.maximumBytes, SourceMissing, SourceUnstable);
      if leaf.Err? {
        return Err(leaf.error);
      }
      var marked := ValidateMarkerMaterials(context.value.markers);
      if marked.Err? {
        return Err(marked.error);
      }
      var captured := ReadBounded(leaf.value.fd, SizeOf(leaf.value));
      if captured.Err? {
        return Err(captured.error);
      }
      return Ok(Sample(Source(context.value, leaf.value), captured.value));
    }

    method BindFirstSample(c: Config, sample: Sample, admits: Bytes -> bool) returns (r: Result<Bytes, Failure>)
      modifies this
      ensures var s := BindSample(o, old(Now()), c, sample, admits); Now() == s.state && r == s.outcome
    {
      var moduleBound := VerifyModuleLexicalBinding(c.production, sample.source.context.moduleMark);
      if moduleBound.Err? {
        return Err(moduleBound.error);
      }
      r := CaptureFinalBoundSourceSnapshot(sample.source.context.root, sample.source.leaf, sample.bytes, c.maximumBytes,
                                           admits);
    }

    method RequireAbsentEntry() returns (r: Result<(), Failure>)
      modifies this
      ensures var s := RequireAbsent(o, old(Now())); Now() == s.state && r == s.outcome
    {
      var answer := o.stat(time);
      time := time + 1;
      match answer {
        case Ok(w) => return Err(if w.kind.SymbolicLink? then SymlinkRejected else SourcePresent);
        case Err(e) =>
          if e.NoEntry? {
            return Ok(());
          }
          return Err(if e.LinkLoop? then SymlinkRejected else SourceUnreadable);
      }
    }

    method TryBound(c: Config, h: Digest, expected: Text, record: RecordContract) returns (r: Result<Bytes, Failure>)
      requires Now() == START
      modifies this
      ensures var s := BoundBody(o, c, h, expected, record); Now() == s.state && r == s.outcome
    {
      var sample := TakeFirstSample(c);
      if sample.Err? {
        return Err(sample.error);
      }
      if h(sample.value.bytes) != expected {
        return Err(ExpectedSha256Mismatch);
      }
      if !record(sample.value.bytes) {
        return Err(RecordContractFailure);
      }
      r := BindFirstSample(c, sample.value, (b: Bytes) => h(b) == expected);
      if r.Ok? && !record(r.value) {
        return Err(RecordContractFailure);
      }
    }

    /** The hash-bound capture: whatever happens, every retained descriptor is closed before the outcome is known. */
    method CaptureFixedSourceBytes(c: Config, h: Digest, expected: Text, record: RecordContract)
      returns (r: Result<Bytes, Failure>)
      requires Now() == START
      modifies this
      ensures var s := CaptureBound(o, c, h, expected, record); Now() == s.state && r == s.outcome
    {
      if !c.primitives {
        return Err(PrimitivesUnavailable);
      }
      var pending: Option<Failure> := None;
      var success := TryBound(c, h, expected, record);
      if success.Err? {
        pending := Some(success.error);
      }
      var closeFailed := CloseAllDescriptors();
      if closeFailed && pending.None? {
        pending := Some(DescriptorCloseFailed);
      }
      if pending.Some? {
        return Err(pending.value);
      }
      return success;
    }

    method TryDigest(c: Config, h: Digest) returns (r: Result<StableDigest, Failure>)
      requires Now() == START
      modifies this
      ensures var s := DigestBody(o, c, h); Now() == s.state && r == s.outcome
    {
      var sample := TakeFirstSample(c);
      if sample.Err? {
        return Err(sample.error);
      }
      var bound := BindFirstSample(c, sample.value, (b: Bytes) => true);
      if bound.Err? {
        return Err(bound.error);
      }
      return Ok(StableDigest(h(bound.value), |bound.value|));
    }

    method CaptureFixedSourceStableDigest(c: Config, h: Digest) returns (r: Result<StableDigest, Failure>)
      requires Now() == START
      modifies this
      ensures var s := CaptureDigest(o, c, h); Now() == s.state && r == s.outcome
    {
      if !c.primitives {
        return Err(PrimitivesUnavailable);
      }
      var pending: Option<Failure> := None;
      var digest := TryDigest(c, h);
      if digest.Err? {
        pending := Some(digest.error);
      }
      var closeFailed := CloseAllDescriptors();
      if closeFailed && pending.None? {
        pending := Some(DescriptorCloseFailed);
      }
      if pending.Some? {
        return Err(pending.value);
      }
      return digest;
    }

    method TryAbsence(c: Config) returns (r: Result<(), Failure>)
      requires Now() == START && c.path != []
      modifies this
      ensures var s := AbsenceBody(o, c); Now() == s.state && r == s.outcome
    {
      var context := OpenTrustedRepositoryContext(c.root, c.production, c.markers);
      if context.Err? {
        return Err(context.error);
      }
      r := OpenDirectoryComponents(c.path[..|c.path| - 1], ParentDirectoryMissing, false);
      if r.Err? {
        return;
      }
      r := ValidateMarkerMaterials(context.value.markers);
      if r.Err? {
        return;
      }
      r := VerifyModuleLexicalBinding(c.production, context.value.moduleMark);
      if r.Err? {
        return;
      }
      r := RequireAbsentEntry();
      if r.Err? {
        return;
      }
      r := VerifyCompleteOpenedPath(context.value.root);
      if r.Err? {
        return;
      }
      r := RequireAbsentEntry();
    }

    method ObserveFixedSourceAbsence(c: Config) returns (r: Result<(), Failure>)
      requires Now() == START
      modifies this
      ensures var s := ObserveAbsence(o, c); Now() == s.state && r == s.outcome
    {
      if !c.primitives {
        return Err(PrimitivesUnavailable);
      }
      if c.path == [] || exists i :: 0 <= i < |c.path| && BadComponent(c.path[i]) {
        return Err(InternalInvariantFailed);
      }
      var pending: Option<Failure> := None;
      var success := TryAbsence(c);
      if success.Err? {
        pending := Some(success.error);
      }
      var closeFailed := CloseAllDescriptors();
      if closeFailed && pending.None? {
        pending := Some(DescriptorCloseFailed);
      }
      if pending.Some? {
        return Err(pending.value);
      }
      return success;
    }
  }
}
