/**
 The two readers of a single file as they run: descriptors in a list that grows and is popped,
 loops that open, read and close (common/stable_read.py and
 cli/weekly_shadow_01_report_publisher_cli.py). Every method does what `FileReads` says.
 */
module FileReader {
  import opened Outcomes
  import opened Texts
  import opened BoundedReaders
  import opened Descriptors
  import opened FileReads

  class Reader {
    const o: Oracle
    var time: nat
    var descriptors: seq<Fd>
    ghost var opens: seq<Fd>
    ghost var closes: seq<Fd>
    ghost var trace: seq<Trace>

    ghost function Now(): State
      reads this
    {
      State(time, descriptors, opens, closes, trace)
    }

    constructor (oracle: Oracle)
      ensures o == oracle && Now() == START
    {
      o := oracle;
      time := 0;
      descriptors := [];
      opens := [];
      closes := [];
      trace := [];
    }

    method Open() returns (error: Option<Errno>)
      modifies this
      ensures error == o.open(old(time))
      ensures Now() == if error.None? then Opened(old(Now())) else Tick(old(Now()))
    {
      error := o.open(time);
      if error.None? {
        descriptors := descriptors + [time];
        opens := opens + [time];
      }
      time := time + 1;
    }

    method Fstat() returns (status: Result<Status, Errno>)
      modifies this
      ensures status == o.fstat(old(time))
      ensures Now() == if status.Ok? then Seen(old(Now()), status.value) else Tick(old(Now()))
    {
      status := o.fstat(time);
      if status.Ok? {
        trace := trace + [Observed(time, status.value)];
      }
      time := time + 1;
    }

    method EntryStat() returns (status: Option<Status>)
      modifies this
      ensures status == o.entry(old(time)) && Now() == Tick(old(Now()))
    {
      status := o.entry(time);
      time := time + 1;
    }

    // ----- closing -----

    method CloseOne() returns (closedWell: bool)
      requires descriptors != []
      modifies this
      ensures Now() == CloseLast(old(Now())) && closedWell == o.close(old(time))
    {
      closedWell := o.close(time);
      closes := closes + [descriptors[|descriptors| - 1]];
      descriptors := descriptors[..|descriptors| - 1];
      time := time + 1;
    }

    method CloseEvery() returns (failed: bool)
      modifies this
      ensures var s := CloseAll(o, old(Now())); Now() == s.0 && failed == s.1
    {
      ghost var start := Now();
      failed := false;
      while descriptors != []
        invariant CloseAll(o, start) == (CloseAll(o, Now()).0, failed || CloseAll(o, Now()).1)
        decreases |descriptors|
      {
        var closedWell := CloseOne();
        failed := failed || !closedWell;
      }
    }

    // ----- reading once -----

    method ReadToEnd(before: Status, maximumBytes: nat) returns (r: Result<Bytes, StableFailure>)
      modifies this
      ensures var s := ReadOnce(o, old(Now()), before, maximumBytes); Now() == s.state && r == s.outcome
    {
      var bytes, events, next := ReadToEofOnce(o.read, time, maximumBytes);
      GatherMeetsSpec(o.read, time, time, maximumBytes, [], []);
      time := next;
      trace := trace + [Pass(events)];
      if bytes.None? {
        return Err(Translate(o.readErrno(time - 1)));
      }
      var after := Fstat();
      if after.Err? {
        return Err(Translate(after.error));
      }
      if !SameFile(before, after.value) || |bytes.value| != before.size {
        return Err(InputInvalid);
      }
      return Ok(bytes.value);
    }

    method TryStableRead(maximumBytes: int) returns (r: Result<Bytes, StableFailure>)
      modifies this
      ensures var s := StableBody(o, old(Now()), maximumBytes); Now() == s.state && r == s.outcome
    {
      var error := Open();
      if error.Some? {
        return Err(Translate(error.value));
      }
      var status := Fstat();
      if status.Err? {
        return Err(Translate(status.error));
      }
      if !status.value.regular {
        return Err(InputInvalid);
      }
      if status.value.size < 1 || status.value.size > maximumBytes {
        return Err(InputInvalid);
      }
      r := ReadToEnd(status.value, maximumBytes);
    }

    method StableReadExactBytes(maximumBytes: int) returns (r: Result<Bytes, StableFailure>)
      requires Now() == START
      modifies this
      ensures var s := StableRead(o, maximumBytes); Now() == s.state && r == s.outcome
    {
      r := TryStableRead(maximumBytes);
      var failed := CloseEvery();
      if failed {
        r := Err(RawOsError);
      }
    }

    // ----- reading twice -----

    method OpenParents(components: seq<string>) returns (allOpen: bool)
      modifies this
      ensures var s := OpenDirectories(o, old(Now()), |components|); Now() == s.state && allOpen == s.outcome.Ok?
    {
      ghost var start := Now();
      for k := 0 to |components|
        invariant OpenDirectories(o, start, |components|) == OpenDirectories(o, Now(), |components| - k)
      {
        var error := Open();
        if error.Some? {
          return false;
        }
      }
      return true;
    }

    method OpenLeaf() returns (r: Result<Status, ResponseFailure>)
      modifies this
      ensures var s := OpenResponse(o, old(Now())); Now() == s.state && r == s.outcome
    {
      var entry := EntryStat();
      if entry.None? {
        return Err(FileUnreadable);
      }
      if !entry.value.regular {
        return Err(FileWrongType);
      }
      if entry.value.size > MAXIMUM_RAW_RESPONSE_BYTES {
        return Err(FileOversized);
      }
      var error := Open();
      if error.Some? {
        return Err(FileUnreadable);
      }
      var status := Fstat();
      if status.Err? {
        return Err(FileUnreadable);
      }
      if !status.value.regular {
        return Err(FileWrongType);
      }
      if status.value != entry.value {
        return Err(FileUnstable);
      }
      return Ok(status.value);
    }

    method RecheckEvidence(expected: Status) returns (r: Result<(), ResponseFailure>)
      modifies this
      ensures var s := RequireStable(o, old(Now()), expected); Now() == s.state && r == s.outcome
    {
      var status := Fstat();
      if status.Err? {
        return Err(FileUnstable);
      }
      var entry := EntryStat();
      if entry.None? {
        return Err(FileUnstable);
      }
      if !status.value.regular || !entry.value.regular {
        return Err(FileUnstable);
      }
      if status.value != expected || entry.value != expected {
        return Err(FileUnstable);
      }
      return Ok(());
    }

    method ReadAndRecheck(expected: Status) returns (r: Result<Bytes, ResponseFailure>)
      modifies this
      ensures var s := CheckedPass(o, old(Now()), expected); Now() == s.state && r == s.outcome
    {
      var bytes, events, next := ReadExactly(o.read, time, expected.size);
      GatherExactlyMeetsSpec(o.read, time, time, expected.size, [], []);
      time := next;
      trace := trace + [Pass(events)];
      if bytes.Err? {
        return Err(FailureOf(bytes.error));
      }
      var stable := RecheckEvidence(expected);
      if stable.Err? {
        return Err(stable.error);
      }
      return Ok(bytes.value);
    }

    method Rewind() returns (rewound: bool)
      modifies this
      ensures rewound == o.seek(old(time)) && Now() == Tick(old(Now()))
    {
      rewound := o.seek(time);
      time := time + 1;
    }

    method ReadSecondPass(expected: Status, first: Bytes) returns (r: Result<Bytes, ResponseFailure>)
      modifies this
      ensures var s := ReadAgain(o, old(Now()), expected, first); Now() == s.state && r == s.outcome
    {
      var rewound := Rewind();
      if !rewound {
        return Err(FileUnreadable);
      }
      var second := ReadAndRecheck(expected);
      if second.Err? {
        return second;
      }
      if first != second.value || |first| != expected.size {
        return Err(FileUnstable);
      }
      return Ok(first);
    }

    method ReadBothPasses(expected: Status) returns (r: Result<Bytes, ResponseFailure>)
      modifies this
      ensures var s := ReadTwice(o, old(Now()), expected); Now() == s.state && r == s.outcome
    {
      r := ReadAndRecheck(expected);
      if r.Ok? {
        r := ReadSecondPass(expected, r.value);
      }
    }

    method TryAuthenticated(components: seq<string>) returns (r: Result<Bytes, ResponseFailure>)
      modifies this
      ensures var s := ResponseBody(o, old(Now()), components); Now() == s.state && r == s.outcome
    {
      var allOpen := OpenParents(components);
      if !allOpen {
        return Err(FileUnreadable);
      }
      var status := OpenLeaf();
      if status.Err? {
        return Err(status.error);
      }
      r := ReadBothPasses(status.value);
    }

    method AuthenticatedResponseBytes(selector: string) returns (r: Result<Bytes, ResponseFailure>)
      requires Now() == START
      modifies this
      ensures var s := AuthenticatedBytes(o, selector); Now() == s.state && r == s.outcome
    {
      var components := SelectorComponents(selector);
      if components.None? {
        return Err(FileNotAbsolute);
      }
      r := TryAuthenticated(components.value);
      var failed := CloseEvery();
      if failed {
        r := Err(FileUnreadable);
      }
    }
  }
}
