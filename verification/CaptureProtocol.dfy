/**
 The stable source capture as a sequence of system calls (mmi/source_capture.py). What the
 system answers is arbitrary: any writer may act between any two calls. A descriptor is named by
 the call that opened it.
 */
module CaptureProtocol {
  import opened Outcomes
  import opened Texts
  import opened BoundedReaders
  import opened Descriptors

  datatype Kind = Directory | RegularFile | SymbolicLink | OtherKind

  /** Device, inode, mode (a kind and its permissions), size and times of one observation. */
  datatype Witness = Witness(device: int, inode: int, kind: Kind, permissions: int, size: int, mtime: int, ctime: int)

  datatype Errno = NoEntry | NotDirectory | LinkLoop | OtherErrno

  datatype FinalAnswer = FinalOpened | FinalUnavailable | FinalPathRefused | FinalOther

  /** The answer to the call made at each time, for each kind of call. */
  datatype Oracle = Oracle(
    stat: nat -> Result<Witness, Errno>,
    fstat: nat -> Option<Witness>,
    open: nat -> Option<Errno>,
    openFinal: nat -> FinalAnswer,
    inheritable: nat -> Option<bool>,
    seek: nat -> bool,
    read: Answers,
    close: nat -> bool)

  datatype Failure =
    | PrimitivesUnavailable
    | RepositoryRootUnavailable
    | RepositoryMarkerInvalid
    | RepositoryRootUntrusted
    | InternalInvariantFailed
    | SymlinkRejected
    | SourceUnreadable
    | SourceMissing
    | ParentDirectoryMissing
    | SourcePresent
    | IntermediateNotDirectory
    | NotRegularFile
    | SizeInvalid
    | Oversized
    | PathUnstable
    | SourceUnstable
    | SourceOverlong
    | SourceShort
    | ExpectedSha256Mismatch
    | RecordContractFailure
    | DescriptorCloseFailed

  datatype Component = Component(fd: Fd, mark: Witness, directory: bool, unstableCode: Failure)

  /** What happened, for the file a descriptor names: observations of it and reads of it. */
  datatype Trace = Observed(at: nat, fd: Fd, mark: Witness) | Read(fd: Fd, offset: nat, event: Event)

  datatype State = State(
    time: nat,
    descriptors: seq<Fd>,
    held: seq<Fd>,
    components: seq<Component>,
    opens: seq<Fd>,
    closes: seq<Fd>,
    trace: seq<Trace>)

  datatype Step<+T> = Step(state: State, outcome: Result<T, Failure>)

  // ----- what every step keeps -----

  /** Every descriptor opened so far is retained, or held aside, or has been closed, once. */
  ghost predicate Conserved(s: State) {
    && multiset(s.opens) == multiset(s.closes) + multiset(s.descriptors) + multiset(s.held)
    && (forall i, j :: 0 <= i < j < |s.opens| ==> s.opens[i] < s.opens[j])
    && (forall i :: 0 <= i < |s.opens| ==> s.opens[i] < s.time)
  }

  /** Time moves on, and the trace and the opened components only grow. */
  predicate Extends(s: State, t: State) {
    s.time <= t.time && s.trace <= t.trace && s.components <= t.components
  }

  ghost predicate Grows(s: State, t: State) {
    Extends(s, t) && (Conserved(s) ==> Conserved(t))
  }

  /** Growth that leaves nothing held aside that was not. */
  ghost predicate Sound(s: State, t: State) {
    Grows(s, t) && t.held == s.held
  }

  lemma SoundChain(s: State, u: State, t: State)
    requires Sound(s, u) && Sound(u, t)
    ensures Sound(s, t)
  {
  }

  /** The outcome is no close failure. */
  predicate Unclosed<T>(r: Step<T>) {
    r.outcome.Err? ==> !r.outcome.error.DescriptorCloseFailed?
  }

  function Tick(s: State): State {
    s.(time := s.time + 1)
  }

  function Log(s: State, entry: Trace): State {
    s.(trace := s.trace + [entry])
  }

  // ----- single calls -----

  /** A no-follow observation of a name. */
  function EntryStat(o: Oracle, s: State, missing: Failure): (r: Step<Witness>)
    ensures !missing.DescriptorCloseFailed? ==> Unclosed(r)
    ensures Sound(s, r.state) && r.state.components == s.components && r.state.descriptors == s.descriptors
  {
    Step(Tick(s),
         match o.stat(s.time)
         case Ok(w) => Ok(w)
         case Err(NoEntry) => Err(missing)
         case Err(LinkLoop) => Err(SymlinkRejected)
         case Err(_) => Err(SourceUnreadable))
  }

  function Fstat(o: Oracle, s: State, fd: Fd): (r: Step<Witness>)
    ensures Unclosed(r)
    ensures Sound(s, r.state) && r.state.components == s.components && r.state.descriptors == s.descriptors
    ensures r.outcome.Ok? ==> r.state.trace == s.trace + [Observed(s.time, fd, r.outcome.value)]
  {
    match o.fstat(s.time)
    case None => Step(Tick(s), Err(SourceUnreadable))
    case Some(w) => Step(Log(Tick(s), Observed(s.time, fd, w)), Ok(w))
  }

  /** A descriptor opened relative to another, and retained. */
  function OpenRelative(o: Oracle, s: State, unstable: Failure): (r: Step<Fd>)
    ensures !unstable.DescriptorCloseFailed? ==> Unclosed(r)
    ensures Sound(s, r.state) && r.state.components == s.components
    ensures r.outcome.Ok? ==> r.outcome.value == s.time && r.state.descriptors == s.descriptors + [s.time]
  {
    match o.open(s.time)
    case None => Step(Retained(s), Ok(s.time))
    case Some(e) => Step(Tick(s), Err(if e.OtherErrno? then SourceUnreadable else unstable))
  }

  function Retained(s: State): (t: State)
    ensures Sound(s, t)
  {
    var t := s.(time := s.time + 1, descriptors := s.descriptors + [s.time], opens := s.opens + [s.time]);
    assert Conserved(s) ==> Conserved(t);
    t
  }

  function AddComponent(s: State, c: Component): (t: State)
    ensures Sound(s, t)
  {
    s.(components := s.components + [c])
  }

  // ----- opening -----

  predicate SameIdentity(a: Witness, b: Witness) {
    a.device == b.device && a.inode == b.inode
  }

  predicate SameDirectory(a: Witness, b: Witness) {
    a.kind.Directory? && b.kind.Directory? && SameIdentity(a, b)
  }

  /** Components, and then this many directories. */
  predicate DirectoriesAfter(before: seq<Component>, after: seq<Component>, count: nat) {
    && |after| == |before| + count && before <= after
    && forall m :: |before| <= m < |after| ==> after[m].directory
  }

  lemma DirectoriesChain(a: seq<Component>, b: seq<Component>, c: seq<Component>, count: nat)
    requires DirectoriesAfter(a, b, 1) && DirectoriesAfter(b, c, count)
    ensures DirectoriesAfter(a, c, count + 1)
  {
    assert forall m :: |b| <= m < |c| ==> c[m].directory;
    assert c[|a|] == b[|a|];
  }

  function OpenDirectory(o: Oracle, s: State, missing: Failure): (r: Step<Fd>)
    ensures !missing.DescriptorCloseFailed? ==> Unclosed(r)
    ensures Sound(s, r.state)
    ensures r.outcome.Ok? ==> DirectoriesAfter(s.components, r.state.components, 1)
  {
    var entry := EntryStat(o, s, missing);
    if entry.outcome.Err? then Step(entry.state, Err(entry.outcome.error))
    else if entry.outcome.value.kind.SymbolicLink? then Step(entry.state, Err(SymlinkRejected))
    else if !entry.outcome.value.kind.Directory? then Step(entry.state, Err(IntermediateNotDirectory))
    else
      var open := OpenRelative(o, entry.state, PathUnstable);
      if open.outcome.Err? then open
      else
        var shown := Fstat(o, open.state, open.outcome.value);
        if shown.outcome.Err? then Step(shown.state, Err(shown.outcome.error))
        else if !shown.outcome.value.kind.Directory? then Step(shown.state, Err(IntermediateNotDirectory))
        else if !SameDirectory(entry.outcome.value, shown.outcome.value) then Step(shown.state, Err(PathUnstable))
        else
          Step(AddComponent(shown.state, Component(open.outcome.value, shown.outcome.value, true, PathUnstable)),
               Ok(open.outcome.value))
  }

  datatype OpenedFile = OpenedFile(fd: Fd, mark: Witness)

  /** The size recorded when the file was opened; a negative one is refused there. */
  function SizeOf(f: OpenedFile): nat {
    if f.mark.size < 0 then 0 else f.mark.size
  }

  /** The last thing that happened, after s, was to observe the file of fd. */
  predicate JustObserved(s: State, t: State, fd: Fd, mark: Witness) {
    && |s.trace| < |t.trace|
    && var last := t.trace[|t.trace| - 1];
    last.Observed? && last.fd == fd && last.mark == mark && s.time <= last.at && last.at + 1 == t.time
  }

  /** The last component is this file, within its bound, and it was observed just now. */
  predicate FileOpened(s: State, t: State, f: OpenedFile, maximumBytes: int, unstable: Failure) {
    && |s.components| < |t.components|
    && t.components[|t.components| - 1] == Component(f.fd, f.mark, false, unstable)
    && 0 <= f.mark.size <= maximumBytes
    && JustObserved(s, t, f.fd, f.mark)
  }

  lemma OpenedLater(s: State, u: State, t: State, f: OpenedFile, maximumBytes: int, unstable: Failure)
    requires Sound(s, u) && Sound(u, t) && FileOpened(u, t, f, maximumBytes, unstable)
    ensures Sound(s, t) && FileOpened(s, t, f, maximumBytes, unstable)
  {
  }

  function OpenRegular(o: Oracle, s: State, maximumBytes: int, missing: Failure,
                       unstable: Failure): (r: Step<OpenedFile>)
    ensures !missing.DescriptorCloseFailed? && !unstable.DescriptorCloseFailed? ==> Unclosed(r)
    ensures Sound(s, r.state)
    ensures r.outcome.Ok? ==> FileOpened(s, r.state, r.outcome.value, maximumBytes, unstable)
  {
    var entry := EntryStat(o, s, missing);
    if entry.outcome.Err? then Step(entry.state, Err(entry.outcome.error))
    else
      var named := entry.outcome.value;
      if named.kind.SymbolicLink? then Step(entry.state, Err(SymlinkRejected))
      else if !named.kind.RegularFile? then Step(entry.state, Err(NotRegularFile))
      else if named.size < 0 then Step(entry.state, Err(SizeInvalid))
      else if named.size > maximumBytes then Step(entry.state, Err(Oversized))
      else
        var open := OpenRelative(o, entry.state, unstable);
        if open.outcome.Err? then Step(open.state, Err(open.outcome.error))
        else
          var shown := Fstat(o, open.state, open.outcome.value);
          if shown.outcome.Err? then Step(shown.state, Err(shown.outcome.error))
          else if !shown.outcome.value.kind.RegularFile? then Step(shown.state, Err(NotRegularFile))
          else if named != shown.outcome.value then
            Step(shown.state, Err(if unstable.SourceUnstable? && SameIdentity(named, shown.outcome.value)
                                   then SourceUnstable else PathUnstable))
          else
            var t := AddComponent(shown.state, Component(open.outcome.value, shown.outcome.value, false, unstable));
            Step(t, Ok(OpenedFile(open.outcome.value, shown.outcome.value)))
  }

  predicate BadName(name: string) {
    name == "" || name == "." || name == ".."
  }

  predicate BadComponent(name: string) {
    BadName(name) || '/' in name
  }

  /** Opens one directory after another, each inside the last. */
  function OpenDirectories(o: Oracle, s: State, names: seq<string>, missing: Failure, rootNames: bool): (r: Step<()>)
    ensures !missing.DescriptorCloseFailed? ==> Unclosed(r)
    ensures Sound(s, r.state)
    ensures r.outcome.Ok? ==> DirectoriesAfter(s.components, r.state.components, |names|)
    decreases |names|
  {
    if names == [] then Step(s, Ok(()))
    else if rootNames && BadName(names[0]) then Step(s, Err(RepositoryRootUnavailable))
    else
      var first := OpenDirectory(o, s, missing);
      if first.outcome.Err? then Step(first.state, Err(first.outcome.error))
      else
        var rest := OpenDirectories(o, first.state, names[1..], missing, rootNames);
        if rest.outcome.Ok? then
          DirectoriesChain(s.components, first.state.components, rest.state.components, |names| - 1);
          rest
        else rest
  }

  datatype Root = Root(fd: Fd, mark: Witness)

  function OpenRootDirectory(o: Oracle, s: State): (r: Step<Fd>)
    ensures Unclosed(r)
    ensures Sound(s, r.state)
  {
    match o.open(s.time)
    case None => Step(Retained(s), Ok(s.time))
    case Some(e) =>
      Step(Tick(s), Err(if e.LinkLoop? || e.NotDirectory? then SymlinkRejected else RepositoryRootUnavailable))
  }

  /** The file-system root, opened and bound to what its name shows. */
  function OpenAnchor(o: Oracle, s: State): (r: Step<Root>)
    ensures Unclosed(r)
    ensures Sound(s, r.state)
  {
    var open := OpenRootDirectory(o, s);
    if open.outcome.Err? then Step(open.state, Err(open.outcome.error))
    else
      var named := o.stat(open.state.time);
      var ticked := Tick(open.state);
      if named.Err? then Step(ticked, Err(RepositoryRootUnavailable))
      else
        var shown := Fstat(o, ticked, open.outcome.value);
        if shown.outcome.Err? then Step(shown.state, Err(shown.outcome.error))
        else if !SameDirectory(named.value, shown.outcome.value) then Step(shown.state, Err(PathUnstable))
        else Step(shown.state, Ok(Root(open.outcome.value, shown.outcome.value)))
  }

  /** The absolute repository root: its parts after the leading slash. */
  datatype RepositoryRoot = RepositoryRoot(absolute: bool, parts: seq<string>)

  function OpenRepositoryRoot(o: Oracle, s: State, root: RepositoryRoot): (r: Step<Root>)
    ensures Unclosed(r)
    ensures Sound(s, r.state)
  {
    if !root.absolute then Step(s, Err(RepositoryRootUnavailable))
    else
      var anchor := OpenAnchor(o, s);
      if anchor.outcome.Err? then anchor
      else
        var walked := OpenDirectories(o, anchor.state, root.parts, RepositoryRootUnavailable, true);
        if walked.outcome.Err? then Step(walked.state, Err(walked.outcome.error))
        else Step(walked.state, anchor.outcome)
  }

  function OpenFixedPath(o: Oracle, s: State, path: seq<string>, maximumBytes: int, missing: Failure, unstable: Failure)
    : (r: Step<OpenedFile>)
    ensures !missing.DescriptorCloseFailed? && !unstable.DescriptorCloseFailed? ==> Unclosed(r)
    ensures Sound(s, r.state)
    ensures r.outcome.Ok? ==> FileOpened(s, r.state, r.outcome.value, maximumBytes, unstable)
  {
    if path == [] || exists i :: 0 <= i < |path| && BadComponent(path[i]) then Step(s, Err(InternalInvariantFailed))
    else
      var walked := OpenDirectories(o, s, path[..|path| - 1], missing, false);
      if walked.outcome.Err? then Step(walked.state, Err(walked.outcome.error))
      else
        var leaf := OpenRegular(o, walked.state, maximumBytes, missing, unstable);
        if leaf.outcome.Ok? then
          OpenedLater(s, walked.state, leaf.state, leaf.outcome.value, maximumBytes, unstable);
          leaf
        else leaf
  }

  // ----- production markers -----

  datatype Marker = Marker(path: seq<string>, maximumBytes: int, fragments: seq<Bytes>, isModule: bool)

  datatype OpenedMarker = OpenedMarker(marker: Marker, file: OpenedFile)

  /** Opens every marker in turn, reading none. */
  function OpenMarkers(o: Oracle, s: State, markers: seq<Marker>, done: seq<OpenedMarker>): (r: Step<seq<OpenedMarker>>)
    ensures Unclosed(r)
    ensures Sound(s, r.state)
    decreases |markers|
  {
    if markers == [] then Step(s, Ok(done))
    else
      var first := OpenFixedPath(o, s, markers[0].path, markers[0].maximumBytes, RepositoryMarkerInvalid, PathUnstable);
      if first.outcome.Err? then Step(first.state, Err(first.outcome.error))
      else
        var rest := OpenMarkers(o, first.state, markers[1..], done + [OpenedMarker(markers[0], first.outcome.value)]);
        rest
  }

  /** The last opened marker that is the executing module. */
  function ModuleOf(opens: seq<OpenedMarker>): Option<Witness> {
    if opens == [] then None
    else
      var last := opens[|opens| - 1];
      if last.marker.isModule then Some(last.file.mark) else ModuleOf(opens[..|opens| - 1])
  }

  datatype Context = Context(root: Root, markers: seq<OpenedMarker>, moduleMark: Option<Witness>)

  /** Root, markers and module, with nothing of the source opened yet; markers only in production. */
  function OpenContext(o: Oracle, s: State, root: RepositoryRoot, production: bool,
                       markers: seq<Marker>): (r: Step<Context>)
    ensures Unclosed(r)
    ensures Sound(s, r.state)
  {
    var anchored := OpenRepositoryRoot(o, s, root);
    if anchored.outcome.Err? then Step(anchored.state, Err(anchored.outcome.error))
    else if !production then Step(anchored.state, Ok(Context(anchored.outcome.value, [], None)))
    else
      var marked := OpenMarkers(o, anchored.state, markers, []);
      if marked.outcome.Err? then Step(marked.state, Err(marked.outcome.error))
      else if ModuleOf(marked.outcome.value).None? then Step(marked.state, Err(InternalInvariantFailed))
      else Step(marked.state, Ok(Context(anchored.outcome.value, marked.outcome.value, ModuleOf(marked.outcome.value))))
  }

  // ----- reading -----

  function ReadFailureOf(f: ReadFailure): Failure {
    match f
    case Unreadable => SourceUnreadable
    case OverlongRead => SourceOverlong
    case ShortRead => SourceShort
  }

  /** The reads as trace entries, each at the offset the ones before it reached. */
  function ReadsOf(fd: Fd, events: seq<Event>): (r: seq<Trace>)
    ensures |r| == |events|
    ensures forall i :: 0 <= i < |r| ==> r[i] == Read(fd, |Joined(events[..i])|, events[i])
  {
    seq(|events|, i requires 0 <= i < |events| => Read(fd, |Joined(events[..i])|, events[i]))
  }

  function AfterReads(s: State, fd: Fd, g: Gathered): State {
    s.(time := g.next, trace := s.trace + ReadsOf(fd, g.events))
  }

  function ReadFile(o: Oracle, s: State, fd: Fd, expected: nat): (r: Step<Bytes>)
    ensures Unclosed(r)
    ensures Sound(s, r.state) && r.state.components == s.components && r.state.descriptors == s.descriptors
    ensures r.outcome.Ok? ==> |r.outcome.value| == expected
  {
    var g := ReadExact(o.read, s.time, expected);
    ReadExactMeetsSpec(o.read, s.time, expected);
    Step(AfterReads(s, fd, g),
         match ExactOutcome(g, expected)
         case Ok(bytes) => Ok(bytes)
         case Err(f) => Err(ReadFailureOf(f)))
  }

  predicate Contains(bytes: Bytes, fragment: Bytes) {
    exists i :: 0 <= i <= |bytes| && fragment <= bytes[i..]
  }

  predicate MarkerAccepts(m: Marker, bytes: Bytes) {
    bytes != [] && forall i :: 0 <= i < |m.fragments| ==> Contains(bytes, m.fragments[i])
  }

  /** Reads every marker to the size it had when opened, and validates it. */
  function ValidateMarkers(o: Oracle, s: State, markers: seq<OpenedMarker>): (r: Step<()>)
    ensures Unclosed(r)
    ensures Sound(s, r.state) && r.state.components == s.components
    decreases |markers|
  {
    if markers == [] then Step(s, Ok(()))
    else
      var read := ReadFile(o, s, markers[0].file.fd, SizeOf(markers[0].file));
      if read.outcome.Err? then Step(read.state, Err(read.outcome.error))
      else if !MarkerAccepts(markers[0].marker, read.outcome.value) then Step(read.state, Err(RepositoryMarkerInvalid))
      else
        var rest := ValidateMarkers(o, read.state, markers[1..]);
        rest
  }

  /** The executing module's own path shows the very file opened under the root. */
  function VerifyModule(o: Oracle, s: State, production: bool, moduleMark: Option<Witness>): (r: Step<()>)
    ensures Unclosed(r)
    ensures Sound(s, r.state) && r.state.components == s.components
  {
    if !production then Step(s, Ok(()))
    else if moduleMark.None? then Step(s, Err(InternalInvariantFailed))
    else
      Step(Tick(s),
           match o.stat(s.time)
           case Err(_) => Err(RepositoryRootUntrusted)
           case Ok(w) => if w.kind.SymbolicLink? || w != moduleMark.value then Err(RepositoryRootUntrusted) else Ok(()))
  }

  // ----- verifying the opened path -----

  datatype Verdict = Verdict(pathUnstable: bool, sourceUnstable: bool)

  /** What one component's two fresh observations say against its recorded one. */
  function Judge(c: Component, named: Option<Witness>, shown: Option<Witness>): Verdict {
    if named.None? || shown.None? then Verdict(true, false)
    else if named.value.kind.SymbolicLink? then Verdict(true, false)
    else if c.directory then
      Verdict(!SameDirectory(named.value, c.mark) || !SameDirectory(shown.value, c.mark), false)
    else if !named.value.kind.RegularFile? || !shown.value.kind.RegularFile? then Verdict(true, false)
    else if !c.unstableCode.SourceUnstable? then
      Verdict(named.value != c.mark || shown.value != c.mark, false)
    else if !SameIdentity(named.value, c.mark) || !SameIdentity(shown.value, c.mark)
            || !SameIdentity(named.value, shown.value) then Verdict(true, false)
    else Verdict(false, named.value != c.mark || shown.value != c.mark)
  }

  function Both(a: Verdict, b: Verdict): Verdict {
    Verdict(a.pathUnstable || b.pathUnstable, a.sourceUnstable || b.sourceUnstable)
  }

  function Shown(r: Result<Witness, Errno>): Option<Witness> {
    match r case Ok(w) => Some(w) case Err(_) => None
  }

  predicate Steady(v: Verdict) {
    !v.pathUnstable && !v.sourceUnstable
  }

  /** Between s and t the file of c was observed, unchanged. */
  ghost predicate SeenAgain(s: State, t: State, c: Component) {
    exists i: nat, at: nat :: |s.trace| <= i < |t.trace| && t.trace[i] == Observed(at, c.fd, c.mark)
      && s.time <= at < t.time
  }

  lemma SeenFromBefore(s: State, u: State, t: State, c: Component)
    requires Extends(s, u) && SeenAgain(u, t, c)
    ensures SeenAgain(s, t, c)
  {
    var i: nat, at: nat :| |u.trace| <= i < |t.trace| && t.trace[i] == Observed(at, c.fd, c.mark)
        && u.time <= at < t.time;
  }

  lemma StillSeen(s: State, t: State, v: State, c: Component)
    requires SeenAgain(s, t, c) && Extends(t, v)
    ensures SeenAgain(s, v, c)
  {
    var i: nat, at: nat :| |s.trace| <= i < |t.trace| && t.trace[i] == Observed(at, c.fd, c.mark)
        && s.time <= at < t.time;
    assert v.trace[i] == Observed(at, c.fd, c.mark);
  }

  ghost predicate FilesSeen(s: State, t: State, components: seq<Component>, k: nat) {
    forall m :: k <= m < |components| && !components[m].directory ==> SeenAgain(s, t, components[m])
  }

  /** What the two calls from t on say of a component: nothing else enters. */
  function VerdictAt(o: Oracle, c: Component, t: nat): Verdict {
    Judge(c, Shown(o.stat(t)), o.fstat(t + 1))
  }

  /** The verdict so far with those of all components from k on, two calls each. */
  function VerdictsFrom(o: Oracle, components: seq<Component>, k: nat, t: nat, verdict: Verdict): Verdict
    requires k <= |components|
    decreases |components| - k
  {
    if k == |components| then verdict
    else VerdictsFrom(o, components, k + 1, t + 2, Both(verdict, VerdictAt(o, components[k], t)))
  }

  /** One component: its name, then its descriptor, whatever came of the name. */
  function ObserveComponent(o: Oracle, s: State, c: Component): (r: (State, Verdict))
    ensures Sound(s, r.0) && r.0.components == s.components
    ensures r.0.time == s.time + 2 && r.1 == VerdictAt(o, c, s.time)
    ensures Steady(r.1) && !c.directory ==> SeenAgain(s, r.0, c)
  {
    var observed := Fstat(o, Tick(s), c.fd);
    assert observed.outcome == Ok(c.mark) ==> observed.state.trace[|s.trace|] == Observed(s.time + 1, c.fd, c.mark);
    (observed.state,
     Judge(c, Shown(o.stat(s.time)), match observed.outcome case Ok(w) => Some(w) case Err(_) => None))
  }

  lemma SeenOneMore(s: State, t: State, u: State, components: seq<Component>, k: nat)
    requires k < |components| && Extends(s, t) && Extends(t, u)
    ensures (components[k].directory || SeenAgain(s, t, components[k])) && FilesSeen(t, u, components, k + 1) ==>
              FilesSeen(s, u, components, k)
  {
    if (components[k].directory || SeenAgain(s, t, components[k])) && FilesSeen(t, u, components, k + 1) {
      forall m | k <= m < |components| && !components[m].directory ensures SeenAgain(s, u, components[m]) {
        if m == k {
          StillSeen(s, t, u, components[k]);
        } else {
          SeenFromBefore(s, t, u, components[m]);
        }
      }
    }
  }

  /** Every component from k on, never stopping early. */
  function ObserveComponents(o: Oracle, s: State, components: seq<Component>, k: nat,
                             verdict: Verdict): (r: (State, Verdict))
    requires k <= |components|
    ensures Sound(s, r.0) && r.0.components == s.components
    ensures (verdict.pathUnstable ==> r.1.pathUnstable) && (verdict.sourceUnstable ==> r.1.sourceUnstable)
    ensures r.0.time == s.time + 2 * (|components| - k) && r.1 == VerdictsFrom(o, components, k, s.time, verdict)
    ensures Steady(r.1) ==> Steady(verdict) && FilesSeen(s, r.0, components, k)
    decreases |components| - k
  {
    if k == |components| then (s, verdict)
    else
      var (t, one) := ObserveComponent(o, s, components[k]);
      var r := ObserveComponents(o, t, components, k + 1, Both(verdict, one));
      SeenOneMore(s, t, r.0, components, k);
      r
  }

  function ObserveRoot(o: Oracle, s: State, root: Root): (r: (State, Verdict))
    ensures Sound(s, r.0) && r.0.components == s.components
  {
    var observed := Fstat(o, Tick(s), root.fd);
    var named := Shown(o.stat(s.time));
    (observed.state,
     Verdict(named.None? || observed.outcome.Err?
             || !SameDirectory(named.value, root.mark) || !SameDirectory(observed.outcome.value, root.mark), false))
  }

  /** A moved path outranks a changed source. */
  function VerifyPath(o: Oracle, s: State, root: Root): (r: Step<()>)
    ensures Unclosed(r)
    ensures Sound(s, r.state) && r.state.components == s.components
  {
    var (t, atRoot) := ObserveRoot(o, s, root);
    var (u, verdict) := ObserveComponents(o, t, s.components, 0, atRoot);
    Step(u, if verdict.pathUnstable then Err(PathUnstable)
            else if verdict.sourceUnstable then Err(SourceUnstable)
            else Ok(()))
  }

  // ----- the final bound read -----

  /** A descriptor opened on the whole path at once, held aside from the retained ones. */
  function Held(s: State): (t: State)
    ensures Grows(s, t)
  {
    var t := s.(time := s.time + 1, held := s.held + [s.time], opens := s.opens + [s.time]);
    assert Conserved(s) ==> Conserved(t);
    t
  }

  /** Closes the descriptor last held aside. */
  function CloseHeld(s: State): (t: State)
    requires s.held != []
    ensures Grows(s, t) && t.held == s.held[..|s.held| - 1] && t.components == s.components
    ensures t.descriptors == s.descriptors
  {
    var fd := s.held[|s.held| - 1];
    assert s.held == s.held[..|s.held| - 1] + [fd];
    s.(time := s.time + 1, held := s.held[..|s.held| - 1], closes := s.closes + [fd])
  }

  /** A descriptor that might be inherited is closed at once. */
  function OpenFinal(o: Oracle, s: State): (r: Step<Fd>)
    ensures Grows(s, r.state) && r.state.descriptors == s.descriptors
    ensures r.state.held == if r.outcome.Ok? then s.held + [s.time] else s.held
  {
    match o.openFinal(s.time)
    case FinalUnavailable => Step(Tick(s), Err(PrimitivesUnavailable))
    case FinalPathRefused => Step(Tick(s), Err(PathUnstable))
    case FinalOther => Step(Tick(s), Err(SourceUnreadable))
    case FinalOpened =>
      var t := Tick(Held(s));
      if o.inheritable(s.time + 1) == Some(false) then Step(t, Ok(s.time))
      else
        assert t.held[..|t.held| - 1] == s.held;
        Step(CloseHeld(t), Err(if o.close(t.time) then PrimitivesUnavailable else DescriptorCloseFailed))
  }

  /** Still a regular file, and still the one first opened. */
  predicate StillBound(w: Witness, leaf: Witness) {
    w.kind.RegularFile? && SameIdentity(w, leaf)
  }

  /** Back to the start, and one more reading; whatever fails here is instability. */
  function Reread(o: Oracle, s: State, fd: Fd, size: nat): (r: Step<Bytes>)
    ensures Unclosed(r)
    ensures Sound(s, r.state) && r.state.components == s.components && r.state.descriptors == s.descriptors
    ensures r.outcome.Ok? ==> |r.outcome.value| == size
  {
    var rewound := Tick(s);
    if !o.seek(s.time) then Step(rewound, Err(SourceUnstable))
    else
      var read := ReadFile(o, rewound, fd, size);
      if read.outcome.Err? then Step(read.state, Err(SourceUnstable)) else read
  }

  /** The second reading against the first, and both against every recorded size. */
  function FinalVerdict(bytes: Bytes, size: int, leaf: OpenedFile, initial: Bytes, maximumBytes: int,
                        admits: Bytes -> bool)
    : (r: Result<Bytes, Failure>)
    ensures r.Ok? ==> r.value == initial
    ensures r.Err? ==> r.error == SourceUnstable
  {
    if |bytes| != leaf.mark.size || |bytes| > maximumBytes || size != |bytes| || bytes != initial || !admits(bytes)
    then Err(SourceUnstable) else Ok(bytes)
  }

  function FinalBody(o: Oracle, s: State, fd: Fd, leaf: OpenedFile, initial: Bytes, maximumBytes: int,
                     admits: Bytes -> bool)
    : (r: Step<Bytes>)
    ensures Unclosed(r)
    ensures Sound(s, r.state) && r.state.descriptors == s.descriptors
    ensures r.outcome.Ok? ==> r.outcome.value == initial
  {
    var before := Fstat(o, s, fd);
    if before.outcome.Err? then Step(before.state, Err(before.outcome.error))
    else if !StillBound(before.outcome.value, leaf.mark) then Step(before.state, Err(PathUnstable))
    else
      var read := Reread(o, before.state, fd, |initial|);
      SoundChain(s, before.state, read.state);
      if read.outcome.Err? then Step(read.state, Err(read.outcome.error))
      else
        var after := Fstat(o, read.state, fd);
        SoundChain(s, read.state, after.state);
        if after.outcome.Err? then Step(after.state, Err(PathUnstable))
        else if !StillBound(after.outcome.value, leaf.mark) then Step(after.state, Err(PathUnstable))
        else
          Step(after.state,
               FinalVerdict(read.outcome.value, after.outcome.value.size, leaf, initial, maximumBytes, admits))
  }

  /** One bound open, one reading, one close; the close failure waits for no other. */
  function FinalRead(o: Oracle, s: State, leaf: OpenedFile, initial: Bytes, maximumBytes: int, admits: Bytes -> bool)
    : (r: Step<Bytes>)
    ensures Sound(s, r.state)
    ensures r.outcome.Ok? ==> r.outcome.value == initial
  {
    var open := OpenFinal(o, s);
    if open.outcome.Err? then Step(open.state, Err(open.outcome.error))
    else
      var body := FinalBody(o, open.state, open.outcome.value, leaf, initial, maximumBytes, admits);
      Step(CloseHeld(body.state),
           if body.outcome.Ok? && !o.close(body.state.time) then Err(DescriptorCloseFailed) else body.outcome)
  }

  /** The path verified as a whole, and the source read once more through it. */
  function FinalSnapshot(o: Oracle, s: State, root: Root, leaf: OpenedFile, initial: Bytes, maximumBytes: int,
                         admits: Bytes -> bool): (r: Step<Bytes>)
    ensures Sound(s, r.state)
    ensures r.outcome.Ok? ==> r.outcome.value == initial
  {
    if leaf.mark.size != |initial| || |initial| > maximumBytes then Step(s, Err(InternalInvariantFailed))
    else
      var verified := VerifyPath(o, s, root);
      if verified.outcome.Err? then Step(verified.state, Err(verified.outcome.error))
      else FinalRead(o, verified.state, leaf, initial, maximumBytes, admits)
  }

  // ----- closing -----

  /** The last retained descriptor is closed, whether or not the system says so. */
  function CloseLast(s: State): (t: State)
    requires s.descriptors != []
    ensures Conserved(s) ==> Conserved(t)
  {
    var n := |s.descriptors| - 1;
    assert s.descriptors == s.descriptors[..n] + [s.descriptors[n]];
    s.(time := s.time + 1, descriptors := s.descriptors[..n], closes := s.closes + [s.descriptors[n]])
  }

  /** Every retained descriptor, last first, whatever the closes before it did. */
  function CloseAll(o: Oracle, s: State): (r: (State, bool))
    ensures Conserved(s) ==> Conserved(r.0)
    ensures r.0.descriptors == [] && r.0.held == s.held && r.0.trace == s.trace
    decreases |s.descriptors|
  {
    if s.descriptors == [] then (s, false)
    else
      var (u, failed) := CloseAll(o, CloseLast(s));
      (u, failed || !o.close(s.time))
  }

  /** A close failure is reported only when nothing else is. */
  function Finish<T>(o: Oracle, body: Step<T>): (r: Step<T>)
    ensures Conserved(body.state) ==> Conserved(r.state)
    ensures r.state.descriptors == [] && r.state.held == body.state.held && r.state.trace == body.state.trace
    ensures r.outcome.Ok? ==> body.outcome == r.outcome
  {
    var (closed, failed) := CloseAll(o, body.state);
    Step(closed, if body.outcome.Ok? && failed then Err(DescriptorCloseFailed) else body.outcome)
  }

  // ----- the three captures -----

  datatype Config = Config(
    primitives: bool,
    root: RepositoryRoot,
    production: bool,
    markers: seq<Marker>,
    path: seq<string>,
    maximumBytes: int)

  const START: State := State(0, [], [], [], [], [], [])

  datatype Source = Source(context: Context, leaf: OpenedFile)

  /** The trusted context, and then the source itself. */
  function OpenSource(o: Oracle, c: Config): (r: Step<Source>)
    ensures Unclosed(r)
    ensures Sound(START, r.state)
    ensures r.outcome.Ok? ==> FileOpened(START, r.state, r.outcome.value.leaf, c.maximumBytes, SourceUnstable)
  {
    var context := OpenContext(o, START, c.root, c.production, c.markers);
    if context.outcome.Err? then Step(context.state, Err(context.outcome.error))
    else
      var leaf := OpenFixedPath(o, context.state, c.path, c.maximumBytes, SourceMissing, SourceUnstable);
      if leaf.outcome.Err? then Step(leaf.state, Err(leaf.outcome.error))
      else
        OpenedLater(START, context.state, leaf.state, leaf.outcome.value, c.maximumBytes, SourceUnstable);
        Step(leaf.state, Ok(Source(context.outcome.value, leaf.outcome.value)))
  }

  datatype Sample = Sample(source: Source, bytes: Bytes)

  /** The markers validated, and the source read for the first time. */
  function ReadSource(o: Oracle, s: State, source: Source): (r: Step<Sample>)
    ensures Unclosed(r)
    ensures Sound(s, r.state)
    ensures r.outcome.Ok? ==> r.outcome.value.source == source && |r.outcome.value.bytes| == SizeOf(source.leaf)
  {
    var marked := ValidateMarkers(o, s, source.context.markers);
    if marked.outcome.Err? then Step(marked.state, Err(marked.outcome.error))
    else
      var read := ReadFile(o, marked.state, source.leaf.fd, SizeOf(source.leaf));
      if read.outcome.Err? then Step(read.state, Err(read.outcome.error))
      else Step(read.state, Ok(Sample(source, read.outcome.value)))
  }

  /** Everything up to the first reading of the source, the same for every capture that reads it. */
  function TakeSample(o: Oracle, c: Config): (r: Step<Sample>)
    ensures Unclosed(r)
    ensures Sound(START, r.state)
  {
    var source := OpenSource(o, c);
    if source.outcome.Err? then Step(source.state, Err(source.outcome.error))
    else
      var sample := ReadSource(o, source.state, source.outcome.value);
      SoundChain(START, source.state, sample.state);
      sample
  }

  type Digest = Bytes -> Text

  /** Module binding, path verification and the final reading, over one sample. */
  function BindSample(o: Oracle, s: State, c: Config, sample: Sample, admits: Bytes -> bool): (r: Step<Bytes>)
    ensures Sound(s, r.state)
    ensures r.outcome.Ok? ==> r.outcome.value == sample.bytes
  {
    var moduleBound := VerifyModule(o, s, c.production, sample.source.context.moduleMark);
    if moduleBound.outcome.Err? then Step(moduleBound.state, Err(moduleBound.outcome.error))
    else FinalSnapshot(o, moduleBound.state, sample.source.context.root, sample.source.leaf, sample.bytes,
                       c.maximumBytes, admits)
  }

  /** The source record can be built for these bytes and holds its own contract. */
  type RecordContract = Bytes -> bool

  function BoundBody(o: Oracle, c: Config, h: Digest, expected: Text, record: RecordContract): (r: Step<Bytes>)
    ensures Sound(START, r.state)
  {
    var sample := TakeSample(o, c);
    if sample.outcome.Err? then Step(sample.state, Err(sample.outcome.error))
    else if h(sample.outcome.value.bytes) != expected then Step(sample.state, Err(ExpectedSha256Mismatch))
    else if !record(sample.outcome.value.bytes) then Step(sample.state, Err(RecordContractFailure))
    else
      var bound := BindSample(o, sample.state, c, sample.outcome.value, (b: Bytes) => h(b) == expected);
      if bound.outcome.Ok? && !record(bound.outcome.value) then Step(bound.state, Err(RecordContractFailure))
      else bound
  }

  function CaptureBound(o: Oracle, c: Config, h: Digest, expected: Text, record: RecordContract): Step<Bytes> {
    if !c.primitives then Step(START, Err(PrimitivesUnavailable))
    else Finish(o, BoundBody(o, c, h, expected, record))
  }

  datatype StableDigest = StableDigest(sha256: Text, size: nat)

  function DigestBody(o: Oracle, c: Config, h: Digest): (r: Step<StableDigest>)
    ensures Sound(START, r.state)
  {
    var sample := TakeSample(o, c);
    if sample.outcome.Err? then Step(sample.state, Err(sample.outcome.error))
    else
      var bound := BindSample(o, sample.state, c, sample.outcome.value, (b: Bytes) => true);
      Step(bound.state,
           match bound.outcome
           case Err(f) => Err(f)
           case Ok(bytes) => Ok(StableDigest(h(bytes), |bytes|)))
  }

  function CaptureDigest(o: Oracle, c: Config, h: Digest): Step<StableDigest> {
    if !c.primitives then Step(START, Err(PrimitivesUnavailable)) else Finish(o, DigestBody(o, c, h))
  }

  function RequireAbsent(o: Oracle, s: State): (r: Step<()>)
    ensures Unclosed(r)
    ensures Sound(s, r.state) && r.state.components == s.components
    ensures r.state.time == s.time + 1 && (r.outcome.Ok? <==> o.stat(s.time) == Err(NoEntry))
  {
    Step(Tick(s),
         match o.stat(s.time)
         case Err(NoEntry) => Ok(())
         case Err(LinkLoop) => Err(SymlinkRejected)
         case Err(_) => Err(SourceUnreadable)
         case Ok(w) => Err(if w.kind.SymbolicLink? then SymlinkRejected else SourcePresent))
  }

  /** The leaf is absent before the whole path is verified, and still absent after. */
  function AbsentTwice(o: Oracle, s: State, root: Root): (r: Step<()>)
    ensures Unclosed(r)
    ensures Sound(s, r.state)
  {
    var first := RequireAbsent(o, s);
    if first.outcome.Err? then first
    else
      var verified := VerifyPath(o, first.state, root);
      if verified.outcome.Err? then verified else RequireAbsent(o, verified.state)
  }

  function MarkersAndModule(o: Oracle, s: State, c: Config, context: Context): (r: Step<()>)
    ensures Unclosed(r)
    ensures Sound(s, r.state) && r.state.components == s.components
  {
    var marked := ValidateMarkers(o, s, context.markers);
    if marked.outcome.Err? then marked else VerifyModule(o, marked.state, c.production, context.moduleMark)
  }

  function AbsenceBody(o: Oracle, c: Config): (r: Step<()>)
    requires c.path != []
    ensures Unclosed(r)
    ensures Sound(START, r.state)
  {
    var context := OpenContext(o, START, c.root, c.production, c.markers);
    if context.outcome.Err? then Step(context.state, Err(context.outcome.error))
    else
      var parents := OpenDirectories(o, context.state, c.path[..|c.path| - 1], ParentDirectoryMissing, false);
      SoundChain(START, context.state, parents.state);
      if parents.outcome.Err? then parents
      else
        var trusted := MarkersAndModule(o, parents.state, c, context.outcome.value);
        SoundChain(START, parents.state, trusted.state);
        if trusted.outcome.Err? then trusted
        else
          var absent := AbsentTwice(o, trusted.state, context.outcome.value.root);
          SoundChain(START, trusted.state, absent.state);
          absent
  }

  function ObserveAbsence(o: Oracle, c: Config): Step<()> {
    if !c.primitives then Step(START, Err(PrimitivesUnavailable))
    else if c.path == [] || exists i :: 0 <= i < |c.path| && BadComponent(c.path[i]) then
      Step(START, Err(InternalInvariantFailed))
    else Finish(o, AbsenceBody(o, c))
  }
}
