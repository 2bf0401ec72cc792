/**
 The prepared-handoff envelope (mmi/mmi_h1_prepared_handoff_v1.py): nine fields around one
 opaque grounded prompt, self-identified and bounded.
 */
module PreparedHandoff {
  import opened Outcomes
  import opened Digits
  import opened Texts
  import opened JsonValues
  import opened JsonText
  import opened JsonRoundTrip
  import opened Canonical
  import opened Identity
  import opened FlatRecords
  import Dates

  /**
   The names and constant values of a closed envelope contract, and whether the platform writes
   years with all their four digits.
   */
  datatype Contract = Contract(
    schemaVersionField: Text,
    artifactKindField: Text,
    reportOnlyField: Text,
    authorityField: Text,
    timestampField: Text,
    settingsField: Text,
    portfolioField: Text,
    promptField: Text,
    identityField: Text,
    schemaVersion: Text,
    artifactKind: Text,
    authority: Text,
    domain: Bytes,
    padsYears: bool)

  const HANDOFF_V1: Contract := Contract(
    Ascii("schema_version"),
    Ascii("artifact_kind"),
    Ascii("report_only"),
    Ascii("authority_effect"),
    TIMESTAMP_FIELD,
    Ascii("strategy_settings_source_sha256"),
    Ascii("portfolio_snapshot_source_sha256"),
    Ascii("grounded_prompt"),
    Ascii("prepared_handoff_identity_sha256"),
    Ascii("mmi_h1_prepared_handoff_v1"),
    Ascii("MMI_H1_PREPARED_HANDOFF"),
    Ascii("NONE"),
    Ascii("mmi_h1_prepared_handoff_v1") + [0],
    false)

  const MAXIMUM_CANONICAL_BYTES: int := 394_367
  const PROMPT_MAXIMUM_CANONICAL_BYTES: int := 393_852

  function FieldList(c: Contract): seq<Text> {
    [ c.schemaVersionField, c.artifactKindField, c.reportOnlyField, c.authorityField, c.timestampField,
      c.settingsField, c.portfolioField, c.promptField, c.identityField ]
  }

  /** What the proofs need of the names: they differ, print as themselves, and have these lengths. */
  predicate SizedContract(c: Contract) {
    && (forall j, k :: 0 <= j < k < 9 ==> FieldList(c)[j] != FieldList(c)[k])
    && (forall k :: 0 <= k < 9 ==> IsPlain(FieldList(c)[k]))
    && IsPlain(c.schemaVersion) && IsPlain(c.artifactKind) && IsPlain(c.authority) && ValidDomain(c.domain)
    && |c.schemaVersionField| == 14 && |c.schemaVersion| == 26
    && |c.artifactKindField| == 13 && |c.artifactKind| == 23
    && |c.reportOnlyField| == 11
    && |c.authorityField| == 16 && |c.authority| == 4
    && |c.timestampField| == 24 && |c.settingsField| == 31 && |c.portfolioField| == 32
    && |c.promptField| == 15 && |c.identityField| == 32
    && c.timestampField == TIMESTAMP_FIELD
  }

  lemma ShortNamesPlain()
    ensures IsPlain(HANDOFF_V1.schemaVersionField) && IsPlain(HANDOFF_V1.artifactKindField)
    ensures IsPlain(HANDOFF_V1.reportOnlyField)
  {
  }

  lemma MiddleNamesPlain()
    ensures IsPlain(HANDOFF_V1.authorityField) && IsPlain(HANDOFF_V1.promptField)
  {
  }

  lemma TimestampNamePlain()
    ensures IsPlain(HANDOFF_V1.timestampField)
  {
  }

  lemma SettingsNamePlain()
    ensures IsPlain(HANDOFF_V1.settingsField)
  {
  }

  lemma PortfolioNamePlain()
    ensures IsPlain(HANDOFF_V1.portfolioField)
  {
  }

  lemma IdentityNamePlain()
    ensures IsPlain(HANDOFF_V1.identityField)
  {
  }

  lemma ConstantsPlain()
    ensures IsPlain(HANDOFF_V1.schemaVersion) && IsPlain(HANDOFF_V1.artifactKind) && IsPlain(HANDOFF_V1.authority)
    ensures ValidDomain(HANDOFF_V1.domain)
  {
  }

  lemma HandoffIsSized(padsYears: bool)
    ensures SizedContract(HANDOFF_V1.(padsYears := padsYears))
  {
    ShortNamesPlain();
    MiddleNamesPlain();
    TimestampNamePlain();
    SettingsNamePlain();
    PortfolioNamePlain();
    IdentityNamePlain();
    ConstantsPlain();
    var names, lengths := FieldList(HANDOFF_V1), [14, 13, 11, 16, 24, 31, 32, 15, 32];
    assert forall k :: 0 <= k < 9 ==> |names[k]| == lengths[k];
    assert names[6][1] != names[8][1];
  }

  function ZeroSha256(): Text {
    seq(64, _ => 48)
  }

  // ----- field checks -----

  function Pair(t: Text, i: nat): nat
    requires i + 2 <= |t| && IsDigit(t[i]) && IsDigit(t[i + 1])
  {
    10 * (t[i] - 48) + (t[i + 1] - 48)
  }

  /**
   Text that parses as `%Y-%m-%dT%H:%M:%S.%fZ` and formats back to itself; a year below 1000
   formats without its leading zeros, unless the platform pads it.
   */
  predicate IsCanonicalTimestamp(t: Text, padsYears: bool) {
    && |t| == 27
    && (forall i :: 0 <= i < 26 ==> i in {4, 7, 10, 13, 16, 19} || IsDigit(t[i]))
    && t[4] == 45 && t[7] == 45 && t[10] == 84 && t[13] == 58 && t[16] == 58 && t[19] == 46 && t[26] == 90
    && var year := 100 * Pair(t, 0) + Pair(t, 2);
    && (padsYears || year >= 1000) && Dates.IsCalendarDate(year, Pair(t, 5), Pair(t, 8))
    && Pair(t, 11) < 24 && Pair(t, 14) < 60 && Pair(t, 17) < 60
  }

  predicate IsTimestampValue(v: Json, padsYears: bool) {
    v.Str? && IsCanonicalTimestamp(v.s, padsYears)
  }

  predicate IsDigestValue(v: Json, optional: bool) {
    (optional && v.Null?) || (v.Str? && IsSha256(v.s))
  }

  // ----- the envelope -----

  datatype Inputs = Inputs(timestamp: Json, settings: Json, portfolio: Json, prompt: Json)

  /** Every field but the identity. */
  function EnvelopeFields(c: Contract, i: Inputs, prompt: seq<Member>): seq<Member> {
    [ Member(c.schemaVersionField, Str(c.schemaVersion)),
      Member(c.artifactKindField, Str(c.artifactKind)),
      Member(c.reportOnlyField, Bool(true)),
      Member(c.authorityField, Str(c.authority)),
      Member(c.timestampField, i.timestamp),
      Member(c.settingsField, i.settings),
      Member(c.portfolioField, i.portfolio),
      Member(c.promptField, Obj(prompt)) ]
  }

  /** The checks on a detached envelope. */
  predicate Valid(h: Hash, c: Contract, prepared: seq<Member>) {
    && Keys(prepared) == (set name | name in FieldList(c))
    && Get(prepared, c.schemaVersionField) == Some(Str(c.schemaVersion))
    && Get(prepared, c.artifactKindField) == Some(Str(c.artifactKind))
    && Get(prepared, c.reportOnlyField) == Some(Bool(true))
    && Get(prepared, c.authorityField) == Some(Str(c.authority))
    && IsTimestampValue(Field(prepared, c.timestampField), c.padsYears)
    && IsDigestValue(Field(prepared, c.settingsField), false)
    && IsDigestValue(Field(prepared, c.portfolioField), true)
    && SnapshotMapping(Field(prepared, c.promptField), PROMPT_MAXIMUM_CANONICAL_BYTES).Some?
    && SelfIdentified(h, prepared, c.identityField, c.domain, MAXIMUM_CANONICAL_BYTES)
  }

  /** `prepared.get(field)`. */
  function Field(prepared: seq<Member>, field: Text): Json {
    match Get(prepared, field)
    case None => Null
    case Some(v) => v
  }

  function Validate(h: Hash, c: Contract, value: Json): Option<seq<Member>> {
    match SnapshotMapping(value, MAXIMUM_CANONICAL_BYTES)
    case None => None
    case Some(prepared) => if Valid(h, c, prepared) then Some(prepared) else None
  }

  function Build(h: Hash, c: Contract, i: Inputs): Option<seq<Member>> {
    if !IsTimestampValue(i.timestamp, c.padsYears) || !IsDigestValue(i.settings, false)
    || !IsDigestValue(i.portfolio, true) then None
    else
      match SnapshotMapping(i.prompt, PROMPT_MAXIMUM_CANONICAL_BYTES)
      case None => None
      case Some(prompt) =>
        var prepared := Fill(EnvelopeFields(c, i, prompt), c.identityField, ZeroSha256());
        match RecordIdentity(h, prepared, c.identityField, c.domain, MAXIMUM_CANONICAL_BYTES)
        case Err(_) => None
        case Ok(id) => Validate(h, c, Obj(Put(prepared, Member(c.identityField, Str(id)))))
  }

  // ----- the envelope is a flat record around its prompt -----

  /** The builder's own checks on what it is given, the prompt included. */
  predicate Acceptable(c: Contract, i: Inputs) {
    && IsTimestampValue(i.timestamp, c.padsYears) && IsDigestValue(i.settings, false)
    && IsDigestValue(i.portfolio, true)
    && i.prompt.Obj? && CanonicalJsonBytes(i.prompt, PROMPT_MAXIMUM_CANONICAL_BYTES).Ok?
  }

  function PromptBytes(i: Inputs): nat {
    match CanonicalJsonBytes(i.prompt, PROMPT_MAXIMUM_CANONICAL_BYTES)
    case Err(_) => 0
    case Ok(encoded) => |encoded|
  }

  lemma DetachedPrompt(c: Contract, i: Inputs)
    requires WellFormed(i.prompt) && Acceptable(c, i)
    ensures SnapshotMapping(i.prompt, PROMPT_MAXIMUM_CANONICAL_BYTES) == Some(Normal(i.prompt).members)
    ensures Detached(Normal(i.prompt).members) && EncodableInside(Normal(i.prompt))
    ensures |EncodeAll(Print(Normal(i.prompt)))| == PromptBytes(i)
    ensures Depth(Normal(i.prompt)) == Depth(i.prompt) && Nodes(Normal(i.prompt)) == Nodes(i.prompt)
  {
    SnapshotIsNormal(i.prompt, PROMPT_MAXIMUM_CANONICAL_BYTES);
    DetachedIsCanonical(i.prompt, PROMPT_MAXIMUM_CANONICAL_BYTES, PROMPT_MAXIMUM_CANONICAL_BYTES);
    AdmitExactly(Normal(i.prompt), 0, 0);
    NormalMeasures(i.prompt);
  }

  lemma FieldsFillable(c: Contract, i: Inputs, prompt: seq<Member>)
    requires SizedContract(c)
    requires IsTimestampValue(i.timestamp, c.padsYears) && IsDigestValue(i.settings, false)
             && IsDigestValue(i.portfolio, true)
    requires Detached(prompt) && EncodableInside(Obj(prompt))
    ensures Fillable(EnvelopeFields(c, i, prompt), 7, c.identityField)
  {
    var f, names := EnvelopeFields(c, i, prompt), FieldList(c);
    assert forall k :: 0 <= k < 8 ==> f[k].key == names[k];
    assert names[8] == c.identityField;
  }

  /** What the fields around the prompt take, the identity included. */
  function Overhead(portfolio: Json): nat {
    if portfolio.Null? then 453 else 515
  }

  lemma MemberSizes(c: Contract, i: Inputs, f: seq<Member>)
    requires SizedContract(c) && |f| == 8
    requires IsTimestampValue(i.timestamp, c.padsYears) && IsDigestValue(i.settings, false)
             && IsDigestValue(i.portfolio, true)
    requires FlatAround(f, 7) && f == EnvelopeFields(c, i, f[7].value.members)
    ensures MemberSize(f[0]) == 45 && MemberSize(f[1]) == 41 && MemberSize(f[2]) == 18 && MemberSize(f[3]) == 25
    ensures MemberSize(f[4]) == 56 && MemberSize(f[5]) == 100
    ensures MemberSize(f[6]) == if i.portfolio.Null? then 39 else 101
    ensures MemberSize(f[7]) == 18 + |EncodeAll(Print(f[7].value))|
  {
    forall k | 0 <= k < 7 ensures MemberSize(f[k]) == |f[k].key| + 3 + ScalarSize(f[k].value) {
      ScalarMemberSize(f[k]);
    }
    assert Normal(f[7].value) == f[7].value;
    PrintedMember(f[7]);
  }

  lemma SizeOfEight(f: seq<Member>)
    requires |f| == 8
    ensures SizeFrom(f, 0) == MemberSize(f[0]) + MemberSize(f[1]) + MemberSize(f[2]) + MemberSize(f[3])
                              + MemberSize(f[4]) + MemberSize(f[5]) + MemberSize(f[6]) + MemberSize(f[7]) + 8
  {
    assert SizeFrom(f, 7) == MemberSize(f[7]) + 1 + SizeFrom(f, 8);
    assert SizeFrom(f, 5) == MemberSize(f[5]) + 1 + MemberSize(f[6]) + 1 + SizeFrom(f, 7);
    assert SizeFrom(f, 3) == MemberSize(f[3]) + 1 + MemberSize(f[4]) + 1 + SizeFrom(f, 5);
    assert SizeFrom(f, 1) == MemberSize(f[1]) + 1 + MemberSize(f[2]) + 1 + SizeFrom(f, 3);
  }

  // ----- what the builder accepts -----

  /** Bytes of an envelope's canonical form, or 0 when it has none within the bound. */
  function CanonicalSize(v: Json): nat {
    match CanonicalJsonBytes(v, MAXIMUM_CANONICAL_BYTES)
    case Err(_) => 0
    case Ok(encoded) => |encoded|
  }

  /** The prompt leaves room for the envelope's own depth and nodes. */
  predicate Fits(i: Inputs) {
    1 + Depth(i.prompt) <= MAXIMUM_CANONICAL_DEPTH && 9 + Nodes(i.prompt) <= MAXIMUM_CANONICAL_NODES
  }

  /** The fields around the detached prompt. */
  function Fields(c: Contract, i: Inputs): seq<Member>
    requires i.prompt.Obj?
  {
    EnvelopeFields(c, i, Normal(i.prompt).members)
  }

  function Filled(c: Contract, i: Inputs, identity: Text): seq<Member>
    requires i.prompt.Obj?
  {
    Fill(Fields(c, i), c.identityField, identity)
  }

  lemma AcceptableFields(c: Contract, i: Inputs)
    requires SizedContract(c) && WellFormed(i.prompt) && Acceptable(c, i)
    ensures Fillable(Fields(c, i), 7, c.identityField) && |Fields(c, i)| == 8
    ensures SizeFrom(Fields(c, i), 0) + 103 == Overhead(i.portfolio) + PromptBytes(i)
    ensures Fields(c, i)[7].value == Normal(i.prompt)
  {
    DetachedPrompt(c, i);
    FieldsFillable(c, i, Normal(i.prompt).members);
    MemberSizes(c, i, Fields(c, i));
    SizeOfEight(Fields(c, i));
  }

  lemma FieldsCanonical(c: Contract, i: Inputs, id: Text)
    requires SizedContract(c) && WellFormed(i.prompt) && Acceptable(c, i) && IsSha256(id)
    ensures Fits(i) ==> CanonicalJsonBytes(Obj(Fields(c, i)), MAXIMUM_CANONICAL_BYTES).Ok?
    ensures var r := CanonicalJsonBytes(Obj(Filled(c, i, id)), MAXIMUM_CANONICAL_BYTES);
            && (r.Ok? <==> Fits(i))
            && (r.Ok? ==> CanonicalSize(Obj(Filled(c, i, id))) == PromptBytes(i) + Overhead(i.portfolio))
  {
    AcceptableFields(c, i);
    NormalMeasures(i.prompt);
    FlatCanonical(Fields(c, i), 7, MAXIMUM_CANONICAL_BYTES);
    FilledCanonical(Fields(c, i), 7, c.identityField, id, MAXIMUM_CANONICAL_BYTES);
  }

  // ----- building -----

  function FieldsIdentity(h: Hash, c: Contract, i: Inputs): Result<Text, IdentityError>
    requires i.prompt.Obj?
  {
    DomainSeparated(h, c.domain, Obj(Fields(c, i)), MAXIMUM_CANONICAL_BYTES)
  }

  /** Building is filling in the identity of the other fields and validating the outcome. */
  lemma BuildSteps(h: Hash, c: Contract, i: Inputs)
    requires SizedContract(c) && WellFormed(i.prompt) && Acceptable(c, i)
    ensures Build(h, c, i) == match FieldsIdentity(h, c, i) {
                                case Err(_) => None
                                case Ok(id) => Validate(h, c, Obj(Filled(c, i, id)))
                              }
  {
    var zero := ZeroSha256();
    DetachedPrompt(c, i);
    AcceptableFields(c, i);
    WithoutFilled(Fields(c, i), c.identityField, zero);
    if FieldsIdentity(h, c, i).Ok? {
      PutFilled(Fields(c, i), c.identityField, zero, FieldsIdentity(h, c, i).value);
    }
  }

  lemma FieldsIdentityExists(h: Hash, c: Contract, i: Inputs)
    requires SizedContract(c) && WellFormed(i.prompt) && Acceptable(c, i) && Fits(i) && forall b :: IsSha256(h(b))
    ensures FieldsIdentity(h, c, i).Ok? && IsSha256(FieldsIdentity(h, c, i).value)
  {
    FieldsCanonical(c, i, ZeroSha256());
  }

  lemma DetachedField(c: Contract, i: Inputs, id: Text, k: nat)
    requires SizedContract(c) && WellFormed(i.prompt) && Acceptable(c, i) && IsSha256(id) && k <= 8
    ensures var e := Filled(c, i, id); Get(Normal(Obj(e)).members, e[k].key) == Some(e[k].value)
  {
    AcceptableFields(c, i);
    FilledGet(Fields(c, i), 7, c.identityField, id, k);
  }

  /** Every field of a filled envelope, read after detaching. */
  lemma DetachedFields(c: Contract, i: Inputs, id: Text)
    requires SizedContract(c) && WellFormed(i.prompt) && Acceptable(c, i) && IsSha256(id)
    ensures var r := Normal(Obj(Filled(c, i, id))).members;
            && Get(r, c.schemaVersionField) == Some(Str(c.schemaVersion))
            && Get(r, c.artifactKindField) == Some(Str(c.artifactKind))
            && Get(r, c.reportOnlyField) == Some(Bool(true))
            && Get(r, c.authorityField) == Some(Str(c.authority))
            && Get(r, c.timestampField) == Some(i.timestamp)
            && Get(r, c.settingsField) == Some(i.settings)
            && Get(r, c.portfolioField) == Some(i.portfolio)
            && Get(r, c.promptField) == Some(Normal(i.prompt))
            && Get(r, c.identityField) == Some(Str(id))
  {
    var e := Filled(c, i, id);
    forall k | 0 <= k <= 8 ensures Get(Normal(Obj(e)).members, e[k].key) == Some(e[k].value) {
      DetachedField(c, i, id, k);
    }
    assert e[0] == Fields(c, i)[0] && e[1] == Fields(c, i)[1] && e[2] == Fields(c, i)[2] && e[3] == Fields(c, i)[3];
    assert e[4] == Fields(c, i)[4] && e[5] == Fields(c, i)[5] && e[6] == Fields(c, i)[6] && e[7] == Fields(c, i)[7];
    assert e[8] == Member(c.identityField, Str(id));
  }

  lemma FilledKeys(c: Contract, i: Inputs, id: Text)
    requires SizedContract(c) && WellFormed(i.prompt) && Acceptable(c, i) && IsSha256(id)
    ensures Keys(Normal(Obj(Filled(c, i, id))).members) == set name | name in FieldList(c)
  {
    AcceptableFields(c, i);
    FilledFlat(Fields(c, i), 7, c.identityField, id);
    NormalKeys(Filled(c, i, id));
    FilledNames(c, i, Normal(i.prompt).members, id);
    KeysInOrder(Filled(c, i, id), FieldList(c));
  }

  lemma FilledNames(c: Contract, i: Inputs, prompt: seq<Member>, id: Text)
    ensures var e := Fill(EnvelopeFields(c, i, prompt), c.identityField, id);
            |e| == |FieldList(c)| && forall k :: 0 <= k < |e| ==> e[k].key == FieldList(c)[k]
  {
  }

  lemma KeysInOrder(members: seq<Member>, names: seq<Text>)
    requires |members| == |names| && forall k :: 0 <= k < |names| ==> members[k].key == names[k]
    ensures Keys(members) == set name | name in names
  {
    forall name | name in names ensures name in Keys(members) {
      var k :| 0 <= k < |names| && names[k] == name;
      assert members[k] in members;
    }
  }

  /** A filled envelope passes the separately written checks. */
  lemma FilledIsValid(h: Hash, c: Contract, i: Inputs, id: Text)
    requires SizedContract(c) && WellFormed(i.prompt) && Acceptable(c, i) && IsSha256(id)
    requires FieldsIdentity(h, c, i) == Ok(id)
    ensures Valid(h, c, Normal(Obj(Filled(c, i, id))).members)
  {
    AcceptableFields(c, i);
    DetachedFields(c, i, id);
    FilledKeys(c, i, id);
    FilledIdentifiesItself(h, Fields(c, i), 7, c.identityField, id, c.domain, MAXIMUM_CANONICAL_BYTES);
    PromptDetachesAgain(c, i);
  }

  lemma PromptDetachesAgain(c: Contract, i: Inputs)
    requires WellFormed(i.prompt) && Acceptable(c, i)
    ensures SnapshotMapping(Normal(i.prompt), PROMPT_MAXIMUM_CANONICAL_BYTES).Some?
  {
    DetachedIsCanonical(i.prompt, PROMPT_MAXIMUM_CANONICAL_BYTES, PROMPT_MAXIMUM_CANONICAL_BYTES);
    SnapshotIsNormal(Normal(i.prompt), PROMPT_MAXIMUM_CANONICAL_BYTES);
  }

  lemma FilledValidates(h: Hash, c: Contract, i: Inputs, id: Text)
    requires SizedContract(c) && WellFormed(i.prompt) && Acceptable(c, i) && IsSha256(id)
    requires FieldsIdentity(h, c, i) == Ok(id)
    ensures WellFormed(Obj(Filled(c, i, id)))
    ensures Validate(h, c, Obj(Filled(c, i, id))) == if Fits(i) then Some(Normal(Obj(Filled(c, i, id))).members)
                                                     else None
  {
    AcceptableFields(c, i);
    FilledFlat(Fields(c, i), 7, c.identityField, id);
    FlatNormal(Filled(c, i, id), 7);
    FieldsCanonical(c, i, id);
    SnapshotIsNormal(Obj(Filled(c, i, id)), MAXIMUM_CANONICAL_BYTES);
    FilledIsValid(h, c, i, id);
  }

  /** What validation returns is detached, has the same canonical bytes, and validates to itself. */
  lemma ValidatedAgain(h: Hash, c: Contract, value: Json)
    requires WellFormed(value) && Validate(h, c, value).Some?
    ensures value.Obj? && Validate(h, c, value) == Some(Normal(value).members)
    ensures CanonicalJsonBytes(value, MAXIMUM_CANONICAL_BYTES).Ok?
    ensures CanonicalJsonBytes(Normal(value), MAXIMUM_CANONICAL_BYTES)
            == CanonicalJsonBytes(value, MAXIMUM_CANONICAL_BYTES)
    ensures Detached(Normal(value).members) && Validate(h, c, Normal(value)) == Some(Normal(value).members)
  {
    SnapshotIsNormal(value, MAXIMUM_CANONICAL_BYTES);
    DetachedIsCanonical(value, MAXIMUM_CANONICAL_BYTES, MAXIMUM_CANONICAL_BYTES);
    SnapshotIsNormal(Normal(value), MAXIMUM_CANONICAL_BYTES);
  }

  /** The one envelope that can come out. */
  lemma BuildOutcome(h: Hash, c: Contract, i: Inputs) returns (id: Text)
    requires SizedContract(c) && WellFormed(i.prompt) && forall b :: IsSha256(h(b))
    requires Acceptable(c, i) && Fits(i)
    ensures IsSha256(id) && FieldsIdentity(h, c, i) == Ok(id) && WellFormed(Obj(Filled(c, i, id)))
    ensures Build(h, c, i) == Validate(h, c, Obj(Filled(c, i, id))) == Some(Normal(Obj(Filled(c, i, id))).members)
  {
    FieldsIdentityExists(h, c, i);
    id := FieldsIdentity(h, c, i).value;
    FilledValidates(h, c, i, id);
    BuildSteps(h, c, i);
  }

  lemma BuildNeedsRoom(h: Hash, c: Contract, i: Inputs)
    requires SizedContract(c) && WellFormed(i.prompt) && forall b :: IsSha256(h(b))
    requires Build(h, c, i).Some?
    ensures Acceptable(c, i) && Fits(i)
  {
    SnapshotIsNormal(i.prompt, PROMPT_MAXIMUM_CANONICAL_BYTES);
    assert Acceptable(c, i);
    BuildSteps(h, c, i);
    FilledValidates(h, c, i, FieldsIdentity(h, c, i).value);
  }

  /**
   The envelope can be built exactly when the inputs are acceptable and the prompt leaves room
   for the envelope's own depth and nodes; what is built validates to itself.
   */
  lemma BuildExactly(h: Hash, c: Contract, i: Inputs)
    requires SizedContract(c) && WellFormed(i.prompt) && forall b :: IsSha256(h(b))
    ensures Build(h, c, i).Some? <==> Acceptable(c, i) && Fits(i)
    ensures Build(h, c, i).Some? ==> Validate(h, c, Obj(Build(h, c, i).value)) == Build(h, c, i)
  {
    if Build(h, c, i).Some? {
      BuildNeedsRoom(h, c, i);
    }
    if Acceptable(c, i) && Fits(i) {
      var id := BuildOutcome(h, c, i);
      ValidatedAgain(h, c, Obj(Filled(c, i, id)));
    }
  }

  /**
   The outer byte bound rejects nothing the prompt's own bound admits: an envelope takes 515
   bytes more than its prompt, or 453 when the portfolio source was absent, so at most 394,367,
   and exactly that for a prompt of 393,852 bytes beside a present portfolio.
   */
  lemma EnvelopeByteBound(h: Hash, c: Contract, i: Inputs)
    requires SizedContract(c) && WellFormed(i.prompt) && forall b :: IsSha256(h(b))
    requires Build(h, c, i).Some?
    ensures var n := CanonicalSize(Obj(Build(h, c, i).value));
            && n == PromptBytes(i) + Overhead(i.portfolio)
            && 0 < n <= MAXIMUM_CANONICAL_BYTES
            && (n == MAXIMUM_CANONICAL_BYTES <==> i.portfolio.Str? && PromptBytes(i) == PROMPT_MAXIMUM_CANONICAL_BYTES)
  {
    BuildNeedsRoom(h, c, i);
    BuiltSize(h, c, i);
    OverheadFits(c, i);
  }

  lemma OverheadFits(c: Contract, i: Inputs)
    requires Acceptable(c, i)
    ensures var n := PromptBytes(i) + Overhead(i.portfolio);
            && 0 < n <= MAXIMUM_CANONICAL_BYTES
            && (n == MAXIMUM_CANONICAL_BYTES <==> i.portfolio.Str? && PromptBytes(i) == PROMPT_MAXIMUM_CANONICAL_BYTES)
  {
  }

  lemma BuiltSize(h: Hash, c: Contract, i: Inputs)
    requires SizedContract(c) && WellFormed(i.prompt) && forall b :: IsSha256(h(b))
    requires Acceptable(c, i) && Fits(i)
    ensures Build(h, c, i).Some?
    ensures CanonicalSize(Obj(Build(h, c, i).value)) == PromptBytes(i) + Overhead(i.portfolio)
  {
    var id := BuildOutcome(h, c, i);
    FieldsCanonical(c, i, id);
    ValidatedAgain(h, c, Obj(Filled(c, i, id)));
  }

  // ----- a prompt the inner bounds admit and the outer ones do not -----

  function Nest(n: nat): Json {
    if n == 0 then Null else Arr([Nest(n - 1)])
  }

  lemma {:induction false} NestFacts(n: nat)
    ensures WellFormed(Nest(n)) && Normal(Nest(n)) == Nest(n) && Depth(Nest(n)) == n && Nodes(Nest(n)) == n + 1
    ensures !HasFloat(Nest(n)) && !HasHugeInt(Nest(n))
  {
    if n > 0 {
      NestFacts(n - 1);
      var items := [Nest(n - 1)];
      assert items[1..] == [];
      assert NormalItems(items) == items;
    }
  }

  lemma {:induction false} NestPrints(n: nat)
    ensures |Print(Nest(n))| == 2 * n + 4 && IsPlain(Print(Nest(n)))
  {
    if n > 0 {
      NestPrints(n - 1);
      assert Print(Nest(n)) == [LBRACKET] + Print(Nest(n - 1)) + [RBRACKET];
    }
  }

  function Wrap(v: Json): Json {
    Obj([Member([97], v)])
  }

  /** Thirty-two levels: a chain of arrays inside one object. */
  const DEEP_PROMPT: Json := Wrap(Nest(31))

  lemma WrapMeasures(v: Json)
    requires WellFormed(v) && Normal(v) == v && !HasFloat(v) && !HasHugeInt(v)
    ensures WellFormed(Wrap(v)) && Normal(Wrap(v)) == Wrap(v) && Depth(Wrap(v)) == 1 + Depth(v)
    ensures Nodes(Wrap(v)) == 1 + Nodes(v) && !HasFloat(Wrap(v)) && !HasHugeInt(Wrap(v))
  {
    var m := Member([97], v);
    var rest: seq<Member> := [];
    assert [m][1..] == rest;
    assert NormalMembers([m]) == [Member(m.key, Normal(v))] + NormalMembers(rest);
    assert SortMembers([m]) == InsertMember(m, SortMembers(rest));
    assert DepthMembers(rest) == 0 && NodesMembers(rest) == 0;
    assert DepthMembers([m]) == 1 + Depth(v) && NodesMembers([m]) == Nodes(v);
    assert forall k :: 0 <= k < |[m]| ==> [m][k].value == v;
  }

  lemma WrapText(v: Json)
    ensures Print(Wrap(v)) == [LBRACE, QUOTE, 97, QUOTE, COLON] + Print(v) + [RBRACE]
  {
    EscapePlain([97]);
    assert PrintString([97]) == [QUOTE, 97, QUOTE];
    assert PrintMembers([Member([97], v)]) == [QUOTE, 97, QUOTE] + [COLON] + Print(v);
  }

  lemma WrapPrints(v: Json)
    requires forall i :: 0 <= i < |Print(v)| ==> Print(v)[i] < 0x80
    ensures Utf8Encode(Print(Wrap(v))) == Some(Print(Wrap(v))) && |Print(Wrap(v))| == |Print(v)| + 6
  {
    WrapText(v);
    EncodeAscii([LBRACE, QUOTE, 97, QUOTE, COLON] + Print(v) + [RBRACE]);
  }

  lemma WrapCanonical(v: Json)
    requires WellFormed(v) && Normal(v) == v && !HasFloat(v) && !HasHugeInt(v)
    requires Depth(v) < 32 && Nodes(v) < 100 && |Print(v)| + 6 <= PROMPT_MAXIMUM_CANONICAL_BYTES
    requires forall i :: 0 <= i < |Print(v)| ==> Print(v)[i] < 0x80
    ensures CanonicalJsonBytes(Wrap(v), PROMPT_MAXIMUM_CANONICAL_BYTES).Ok?
    ensures |CanonicalJsonBytes(Wrap(v), PROMPT_MAXIMUM_CANONICAL_BYTES).value| == |Print(v)| + 6
  {
    WrapMeasures(v);
    WrapPrints(v);
    AdmitExactly(Wrap(v), 0, 0);
  }

  lemma DeepPromptFacts()
    ensures WellFormed(DEEP_PROMPT) && Depth(DEEP_PROMPT) == 32
    ensures CanonicalJsonBytes(DEEP_PROMPT, PROMPT_MAXIMUM_CANONICAL_BYTES).Ok?
  {
    NestFacts(31);
    NestPrints(31);
    WrapMeasures(Nest(31));
    WrapCanonical(Nest(31));
  }

  /** Thirty-two levels are within the prompt's bounds, and one too many inside the envelope. */
  lemma DeepPromptRejected(h: Hash, c: Contract, i: Inputs)
    requires SizedContract(c) && forall b :: IsSha256(h(b))
    requires IsTimestampValue(i.timestamp, c.padsYears) && IsDigestValue(i.settings, false)
             && IsDigestValue(i.portfolio, true)
    requires i.prompt == DEEP_PROMPT
    ensures Acceptable(c, i) && Build(h, c, i) == None
  {
    DeepPromptFacts();
    if Build(h, c, i).Some? {
      BuildNeedsRoom(h, c, i);
    }
  }

  // ----- a prompt that fills the envelope to the last byte -----

  function Letters(n: nat): Text {
    seq(n, _ => 97)
  }

  /** One field of 393,844 letters: 393,852 canonical bytes. */
  function FullPrompt(): Json {
    Wrap(Str(Letters(393_844)))
  }

  lemma FullPromptSize(n: nat)
    requires n + 8 <= PROMPT_MAXIMUM_CANONICAL_BYTES
    ensures var r := CanonicalJsonBytes(Wrap(Str(Letters(n))), PROMPT_MAXIMUM_CANONICAL_BYTES);
            r.Ok? && |r.value| == n + 8
    ensures WellFormed(Wrap(Str(Letters(n)))) && Depth(Wrap(Str(Letters(n)))) == 1 && Nodes(Wrap(Str(Letters(n)))) == 2
  {
    var v := Str(Letters(n));
    PlainString(v.s);
    EscapePlain(v.s);
    WrapMeasures(v);
    WrapCanonical(v);
  }

  /** Beside a present portfolio that prompt takes the envelope to exactly its own bound, and it builds. */
  lemma FullEnvelope(h: Hash, c: Contract, i: Inputs)
    requires SizedContract(c) && forall b :: IsSha256(h(b))
    requires IsTimestampValue(i.timestamp, c.padsYears) && IsDigestValue(i.settings, false)
             && IsDigestValue(i.portfolio, false)
    requires i.prompt == FullPrompt()
    ensures PromptBytes(i) == PROMPT_MAXIMUM_CANONICAL_BYTES
    ensures Build(h, c, i).Some? && CanonicalSize(Obj(Build(h, c, i).value)) == MAXIMUM_CANONICAL_BYTES
  {
    FullPromptSize(393_844);
    BuildExactly(h, c, i);
    EnvelopeByteBound(h, c, i);
  }

  // ----- resumption -----

  function ResumeHandoff(h: Hash, c: Contract, handoff: Json, expected: Text): Option<Text> {
    Resume(handoff, expected, (s: seq<Member>) => Validate(h, c, Obj(s)).Some?, c.identityField,
           MAXIMUM_CANONICAL_BYTES, (t: Text) => IsCanonicalTimestamp(t, c.padsYears))
  }

  /** Whatever was built resumes, under the identity it carries, to the very time it was built with. */
  lemma BuiltResumes(h: Hash, c: Contract, i: Inputs)
    requires SizedContract(c) && WellFormed(i.prompt) && forall b :: IsSha256(h(b))
    requires Build(h, c, i).Some?
    ensures i.timestamp.Str? && Field(Build(h, c, i).value, c.identityField).Str?
    ensures ResumeHandoff(h, c, Obj(Build(h, c, i).value), Field(Build(h, c, i).value, c.identityField).s)
         == Some(i.timestamp.s)
  {
    BuildNeedsRoom(h, c, i);
    var id := BuildOutcome(h, c, i);
    DetachedFields(c, i, id);
    ValidatedAgain(h, c, Obj(Filled(c, i, id)));
    ResumesTo(h, c, Build(h, c, i).value, id, i.timestamp);
  }

  lemma ResumesTo(h: Hash, c: Contract, record: seq<Member>, id: Text, timestamp: Json)
    requires Detached(record) && Validate(h, c, Obj(record)) == Some(record)
    requires Get(record, c.identityField) == Some(Str(id)) && IsSha256(id) && c.identityField != []
    requires Get(record, TIMESTAMP_FIELD) == Some(timestamp) && IsTimestampValue(timestamp, c.padsYears)
    ensures ResumeHandoff(h, c, Obj(record), id) == Some(timestamp.s)
  {
    SnapshotIsNormal(Obj(record), MAXIMUM_CANONICAL_BYTES);
  }

  lemma HandoffChecksIdentity(h: Hash, c: Contract)
    ensures ChecksIdentity((s: seq<Member>) => Validate(h, c, Obj(s)).Some?, h, c.identityField, c.domain,
                           MAXIMUM_CANONICAL_BYTES)
  {
    forall record | Detached(record) && Validate(h, c, Obj(record)).Some?
      ensures SelfIdentified(h, record, c.identityField, c.domain, MAXIMUM_CANONICAL_BYTES)
    {
      SnapshotIsNormal(Obj(record), MAXIMUM_CANONICAL_BYTES);
    }
  }

  /** Two envelopes resumed under one expected identity yield one evaluation time, or a collision. */
  lemma ResumedHandoffTimesAgree(h: Hash, c: Contract, a: Json, b: Json, expected: Text)
    requires SizedContract(c) && WellFormed(a) && WellFormed(b)
    requires ResumeHandoff(h, c, a, expected).Some? && ResumeHandoff(h, c, b, expected).Some?
    ensures ResumeHandoff(h, c, a, expected) == ResumeHandoff(h, c, b, expected)
         || Collision(h, ArtifactMaterial(a, c.identityField, c.domain, MAXIMUM_CANONICAL_BYTES),
                      ArtifactMaterial(b, c.identityField, c.domain, MAXIMUM_CANONICAL_BYTES))
  {
    HandoffChecksIdentity(h, c);
    ResumedTimesAgree(h, a, b, expected, (s: seq<Member>) => Validate(h, c, Obj(s)).Some?, c.identityField, c.domain,
                      MAXIMUM_CANONICAL_BYTES, (t: Text) => IsCanonicalTimestamp(t, c.padsYears));
  }
}
