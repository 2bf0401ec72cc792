/**
 Whole runs over a one-byte file directly below the root. On a system where nothing fails the
 captures succeed; where the final descriptor has to be dropped and that one close fails, the close
 failure is reported instead of the reason for dropping it.
 */
module CaptureExample {
  import opened Outcomes
  import opened Texts
  import opened BoundedReaders
  import opened Descriptors
  import opened CaptureProtocol
  import opened CaptureLaws
  import opened CaptureStability

  const ROOT: Witness := Witness(1, 2, Directory, 0, 0, 0, 0)
  const FILE: Witness := Witness(1, 3, RegularFile, 0, 1, 0, 0)

  /** The root is looked at by calls 1, 2, 8 and 9, the file by all others; reads come in pairs. */
  function Shows(t: nat): Witness {
    if t in {1, 2, 8, 9} then ROOT else FILE
  }

  function Answer(t: nat, byte: Byte): Option<Bytes> {
    Some(if t == 6 || t == 16 then [byte] else [])
  }

  /** Everything works, but for what the final descriptor's inheritance shows and the close of call 14. */
  function System(byte: Byte, inheritance: Option<bool>, drops: bool): Oracle {
    Oracle((t: nat) => Ok(Shows(t)), (t: nat) => Some(Shows(t)), (t: nat) => None, (t: nat) => FinalOpened,
           (t: nat) => inheritance, (t: nat) => true, (t: nat) => Answer(t, byte), (t: nat) => t != 14 || drops)
  }

  function Calm(byte: Byte): Oracle {
    System(byte, Some(false), true)
  }

  function BelowRoot(maximumBytes: nat): Config {
    Config(true, RepositoryRoot(true, []), false, [], ["f"], maximumBytes)
  }

  lemma OneByte(o: Oracle, at: nat, byte: Byte)
    requires o.read(at) == Some([byte]) && o.read(at + 1) == Some([])
    ensures var g := ReadExact(o.read, at, 1);
            g.bytes == [byte] && g.next == at + 2 && !g.failed
  {
    var first := Event(at, 2, Some([byte]));
    assert Reply(o.read, at, 2) == Some([byte]);
    assert Gather(o.read, at, 1, [], []) == Gather(o.read, at + 1, 1, [first], [] + [byte]);
  }

  lemma OpensRoot(byte: Byte, inheritance: Option<bool>, drops: bool)
    ensures var r := OpenRepositoryRoot(System(byte, inheritance, drops), START, RepositoryRoot(true, []));
            r.outcome == Ok(Root(0, ROOT)) && r.state.time == 3 && r.state.components == []
            && r.state.descriptors == [0] && r.state.held == []
  {
    var anchor := OpenAnchor(System(byte, inheritance, drops), START);
    assert anchor.state.time == 3 && anchor.outcome == Ok(Root(0, ROOT));
  }

  lemma OpensFile(byte: Byte, inheritance: Option<bool>, drops: bool, s: State, maximumBytes: nat)
    requires maximumBytes >= 1 && s.time == 3
    ensures var r := OpenRegular(System(byte, inheritance, drops), s, maximumBytes, SourceMissing, SourceUnstable);
            r.outcome == Ok(OpenedFile(4, FILE)) && r.state.time == 6 && r.state.held == s.held
            && r.state.components == s.components + [Component(4, FILE, false, SourceUnstable)]
            && r.state.descriptors == s.descriptors + [4]
  {
    var o := System(byte, inheritance, drops);
    var entry := EntryStat(o, s, SourceMissing);
    var open := OpenRelative(o, entry.state, SourceUnstable);
    assert entry.outcome == Ok(FILE) && open.outcome == Ok(4);
    assert Fstat(o, open.state, 4).outcome == Ok(FILE);
  }

  lemma OpensPath(byte: Byte, inheritance: Option<bool>, drops: bool, s: State, maximumBytes: nat)
    requires maximumBytes >= 1 && s.time == 3
    ensures OpenFixedPath(System(byte, inheritance, drops), s, ["f"], maximumBytes, SourceMissing, SourceUnstable)
         == OpenRegular(System(byte, inheritance, drops), s, maximumBytes, SourceMissing, SourceUnstable)
  {
    assert ["f"][..0] == [] && !BadComponent("f");
    OpensFile(byte, inheritance, drops, s, maximumBytes);
  }

  lemma Opens(byte: Byte, inheritance: Option<bool>, drops: bool, maximumBytes: nat)
    requires maximumBytes >= 1
    ensures var r := OpenSource(System(byte, inheritance, drops), BelowRoot(maximumBytes));
            && r.outcome == Ok(Source(Context(Root(0, ROOT), [], None), OpenedFile(4, FILE)))
            && r.state.time == 6 && r.state.components == [Component(4, FILE, false, SourceUnstable)]
            && r.state.descriptors == [0, 4] && r.state.held == []
  {
    OpensRoot(byte, inheritance, drops);
    var s := OpenRepositoryRoot(System(byte, inheritance, drops), START, RepositoryRoot(true, [])).state;
    OpensPath(byte, inheritance, drops, s, maximumBytes);
    OpensFile(byte, inheritance, drops, s, maximumBytes);
  }

  lemma Samples(byte: Byte, inheritance: Option<bool>, drops: bool, maximumBytes: nat)
    requires maximumBytes >= 1
    ensures var r := TakeSample(System(byte, inheritance, drops), BelowRoot(maximumBytes));
            && r.outcome == Ok(Sample(Source(Context(Root(0, ROOT), [], None), OpenedFile(4, FILE)), [byte]))
            && r.state.time == 8 && r.state.components == [Component(4, FILE, false, SourceUnstable)]
            && r.state.descriptors == [0, 4] && r.state.held == []
  {
    Opens(byte, inheritance, drops, maximumBytes);
    OneByte(System(byte, inheritance, drops), 6, byte);
  }

  lemma Verifies(byte: Byte, inheritance: Option<bool>, drops: bool, s: State)
    requires s.time == 8 && s.components == [Component(4, FILE, false, SourceUnstable)]
    ensures var r := VerifyPath(System(byte, inheritance, drops), s, Root(0, ROOT));
            r.outcome == Ok(()) && r.state.time == 12
  {
    var o := System(byte, inheritance, drops);
    var (t, atRoot) := ObserveRoot(o, s, Root(0, ROOT));
    assert t.time == 10 && atRoot == Verdict(false, false);
    var (u, one) := ObserveComponent(o, t, s.components[0]);
    assert u.time == 12 && one == Verdict(false, false);
    assert ObserveComponents(o, t, s.components, 0, atRoot)
           == ObserveComponents(o, u, s.components, 1, Both(atRoot, one));
  }

  lemma RereadsBody(byte: Byte, s: State, maximumBytes: nat, admits: Bytes -> bool)
    requires s.time == 14 && maximumBytes >= 1 && admits([byte])
    ensures FinalBody(Calm(byte), s, 12, OpenedFile(4, FILE), [byte], maximumBytes, admits).outcome == Ok([byte])
  {
    var o := Calm(byte);
    var before := Fstat(o, s, 12);
    assert before.state.time == 15;
    OneByte(o, 16, byte);
    var read := Reread(o, before.state, 12, 1);
    assert read.state.time == 18 && read.outcome == Ok([byte]);
    assert Fstat(o, read.state, 12).outcome == Ok(FILE);
  }

  lemma Rereads(byte: Byte, s: State, maximumBytes: nat, admits: Bytes -> bool)
    requires s.time == 12 && maximumBytes >= 1 && admits([byte])
    ensures FinalRead(Calm(byte), s, OpenedFile(4, FILE), [byte], maximumBytes, admits).outcome == Ok([byte])
  {
    var final := OpenFinal(Calm(byte), s);
    assert final.state.time == 14 && final.outcome == Ok(12);
    RereadsBody(byte, final.state, maximumBytes, admits);
  }

  /** The digest succeeds, and so by their agreement does the capture bound to it. */
  lemma CalmFileIsCaptured(byte: Byte, maximumBytes: nat, h: Digest, record: RecordContract)
    requires maximumBytes >= 1 && forall b :: h(b) == h([byte]) && |b| <= maximumBytes ==> record(b)
    ensures var o, c := Calm(byte), BelowRoot(maximumBytes);
            && CaptureDigest(o, c, h).outcome == Ok(StableDigest(h([byte]), 1))
            && CaptureBound(o, c, h, h([byte]), record).outcome.Ok?
  {
    var o, c := Calm(byte), BelowRoot(maximumBytes);
    var sample := TakeSample(o, c);
    Samples(byte, Some(false), true, maximumBytes);
    Verifies(byte, Some(false), true, sample.state);
    var verified := VerifyPath(o, sample.state, Root(0, ROOT));
    Rereads(byte, verified.state, maximumBytes, (b: Bytes) => true);
    ClosesFail(o, DigestBody(o, c, h).state);
    BoundMeetsDigest(o, c, h, h([byte]), record);
  }

  /**
   The inheritance of the final descriptor cannot be read: that is what both captures report if
   dropping the descriptor works, and if it does not, they report the close failure in its stead.
   */
  lemma DroppedCloseOutranks(byte: Byte, drops: bool, maximumBytes: nat, h: Digest, record: RecordContract)
    requires maximumBytes >= 1 && record([byte])
    ensures var o, c := System(byte, None, drops), BelowRoot(maximumBytes);
            var reported := if drops then PrimitivesUnavailable else DescriptorCloseFailed;
            && CaptureDigest(o, c, h).outcome == Err(reported)
            && CaptureBound(o, c, h, h([byte]), record).outcome == Err(reported)
  {
    var o, c := System(byte, None, drops), BelowRoot(maximumBytes);
    var reported := if drops then PrimitivesUnavailable else DescriptorCloseFailed;
    var sample := TakeSample(o, c);
    Samples(byte, None, drops, maximumBytes);
    Verifies(byte, None, drops, sample.state);
    var v := VerifyPath(o, sample.state, Root(0, ROOT)).state;
    assert DropFailure(o, v) == reported;
    DroppedOutcome(o, c, h, v);
    BoundDroppedOutcome(o, c, h, h([byte]), record, v);
  }
}
