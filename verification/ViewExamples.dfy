/** Concrete settings and snapshots at the edges of the composed view. */
module ViewExamples {
  import opened Outcomes
  import opened Digits
  import opened Amounts
  import opened Decimals
  import opened Dates
  import Timestamps
  import SourceText
  import opened GapCodes
  import opened Universe
  import OpenBuyTable
  import opened PolicyProjection
  import opened PortfolioProjection
  import opened AnalystView
  import opened ViewContract
  import opened ComposedView

  /** Settings with neither optional rule. */
  function SmallSettings(asOf: string, run: Yaml): Settings {
    [ (CoreUniverse, YList([YStr("A")])),
      (SatelliteUniverse, YList([YStr("B")])),
      (ApprovedExtendedList, YList([])),
      (Benchmark, YStr("A")),
      (AsOf, YStr(asOf)),
      (HardCap, YInt(1)),
      (ShortlistRule,
       YMap([(BenchmarkCarrier, YInt(1)), (DiversifiedCoreBufferMax, YInt(1)), (SectorAlphaTiltMax, YInt(1)),
                            (ExtendedMinoritySleeveMax, YInt(1))])),
      (RotationEnabled, YBool(false)),
      (RotationGuardrails,
       YMap([(RequireSameRole, YBool(true)), (MinScoreGap, YInt(0)), (KeepRoleValidHolding, YBool(true)),
                                 (NoOneRankChangeRotation, YBool(true))])),
      (RunTimestampEt, run) ]
  }

  lemma {:induction false} LookupAt(entries: seq<(Key, Yaml)>, i: nat)
    requires i < |entries| && forall j :: 0 <= j < i ==> entries[j].0 != entries[i].0
    ensures Lookup(entries, entries[i].0) == Some(entries[i].1)
  {
    if i > 0 {
      LookupAt(entries[1..], i - 1);
    }
  }

  lemma {:induction false} LookupNowhere(entries: seq<(Key, Yaml)>, key: Key)
    requires forall j :: 0 <= j < |entries| ==> entries[j].0 != key
    ensures Lookup(entries, key) == None
  {
    if entries != [] {
      LookupNowhere(entries[1..], key);
    }
  }

  lemma SmallLists(asOf: string, run: Yaml)
    ensures Lookup(SmallSettings(asOf, run), CoreUniverse) == Some(YList([YStr("A")]))
    ensures Lookup(SmallSettings(asOf, run), SatelliteUniverse) == Some(YList([YStr("B")]))
    ensures Lookup(SmallSettings(asOf, run), ApprovedExtendedList) == Some(YList([]))
    ensures Lookup(SmallSettings(asOf, run), Benchmark) == Some(YStr("A"))
    ensures Lookup(SmallSettings(asOf, run), ThemeMap) == None
  {
    LookupAt(SmallSettings(asOf, run), 0);
    LookupAt(SmallSettings(asOf, run), 1);
    LookupAt(SmallSettings(asOf, run), 2);
    LookupAt(SmallSettings(asOf, run), 3);
    LookupNowhere(SmallSettings(asOf, run), ThemeMap);
  }

  lemma OneTicker(settings: Settings, field: Key, t: string, nonempty: bool)
    requires Lookup(settings, field) == Some(YList([YStr(t)])) && SourceText.IsTicker(t)
    ensures TickerList(settings, field, nonempty) == Ok([t])
  {
    assert TickerTexts([YStr(t)]) == [t];
  }

  lemma NoTicker(settings: Settings, field: Key)
    requires Lookup(settings, field) == Some(YList([]))
    ensures TickerList(settings, field, false) == Ok([])
  {
    assert TickerTexts([]) == [];
  }

  lemma SmallMembers(settings: Settings)
    requires Lookup(settings, CoreUniverse) == Some(YList([YStr("A")]))
    requires Lookup(settings, SatelliteUniverse) == Some(YList([YStr("B")]))
    requires Lookup(settings, ApprovedExtendedList) == Some(YList([]))
    ensures MembersOf(settings) == Ok(Members(["A"], ["B"], []))
  {
    OneTicker(settings, CoreUniverse, "A", true);
    OneTicker(settings, SatelliteUniverse, "B", true);
    NoTicker(settings, ApprovedExtendedList);
    assert "A"[0] != "B"[0];
  }

  lemma SmallUniverse(asOf: string, run: Yaml, sourceIdentity: string)
    ensures AssembleUniverse(SmallSettings(asOf, run), sourceIdentity).Ok?
  {
    SmallLists(asOf, run);
    SmallMembers(SmallSettings(asOf, run));
  }

  lemma SmallRules(asOf: string, run: Yaml)
    ensures Lookup(SmallSettings(asOf, run), AsOf) == Some(YStr(asOf))
    ensures Lookup(SmallSettings(asOf, run), HardCap) == Some(YInt(1))
    ensures Lookup(SmallSettings(asOf, run), RotationEnabled) == Some(YBool(false))
    ensures Lookup(SmallSettings(asOf, run), RunTimestampEt) == Some(run)
  {
    LookupAt(SmallSettings(asOf, run), 4);
    LookupAt(SmallSettings(asOf, run), 5);
    LookupAt(SmallSettings(asOf, run), 7);
    LookupAt(SmallSettings(asOf, run), 9);
  }

  lemma SmallOptions(asOf: string, run: Yaml)
    ensures PerRunOf(SmallSettings(asOf, run)) == Ok(PerRun(false, false, None))
    ensures MaxNewOf(SmallSettings(asOf, run)) == Ok(MaxNew(Unavailable, None, None))
    ensures ConstraintsOf(SmallSettings(asOf, run)) == Ok(Constraints(Unavailable, None, None, None, None, None, None))
  {
    LookupNowhere(SmallSettings(asOf, run), PerRunBudget);
    LookupNowhere(SmallSettings(asOf, run), MaxNewTickers);
    LookupNowhere(SmallSettings(asOf, run), ExtendedConstraints);
  }

  lemma FourEntries(entries: seq<(Key, Yaml)>)
    requires |entries| == 4 && forall i, j :: 0 <= i < j < 4 ==> entries[i].0 != entries[j].0
    ensures Get(entries, entries[0].0) == entries[0].1 && Get(entries, entries[1].0) == entries[1].1
    ensures Get(entries, entries[2].0) == entries[2].1 && Get(entries, entries[3].0) == entries[3].1
    ensures Keys(entries) == {entries[0].0, entries[1].0, entries[2].0, entries[3].0}
  {
    LookupAt(entries, 0);
    LookupAt(entries, 1);
    LookupAt(entries, 2);
    LookupAt(entries, 3);
    assert entries[0] in entries && entries[1] in entries && entries[2] in entries && entries[3] in entries;
  }

  lemma ShortlistReads(settings: Settings, entries: seq<(Key, Yaml)>)
    requires Lookup(settings, ShortlistRule) == Some(YMap(entries))
    requires Keys(entries)
             == {BenchmarkCarrier, DiversifiedCoreBufferMax, SectorAlphaTiltMax, ExtendedMinoritySleeveMax}
    requires Get(entries, BenchmarkCarrier) == Get(entries, DiversifiedCoreBufferMax) == YInt(1)
    requires Get(entries, SectorAlphaTiltMax) == Get(entries, ExtendedMinoritySleeveMax) == YInt(1)
    ensures ShortlistOf(settings).Ok?
  {
  }

  lemma RotationReads(settings: Settings, entries: seq<(Key, Yaml)>)
    requires Lookup(settings, RotationEnabled) == Some(YBool(false))
    requires Lookup(settings, RotationGuardrails) == Some(YMap(entries))
    requires Keys(entries) == {RequireSameRole, MinScoreGap, KeepRoleValidHolding, NoOneRankChangeRotation}
    requires Get(entries, RequireSameRole) == Get(entries, KeepRoleValidHolding) == YBool(true)
    requires Get(entries, NoOneRankChangeRotation) == YBool(true) && Get(entries, MinScoreGap) == YInt(0)
    ensures RotationOf(settings).Ok?
  {
  }

  lemma SmallShortlist(asOf: string, run: Yaml)
    ensures ShortlistOf(SmallSettings(asOf, run)).Ok?
  {
    LookupAt(SmallSettings(asOf, run), 6);
    var entries := SmallSettings(asOf, run)[6].1.entries;
    FourEntries(entries);
    ShortlistReads(SmallSettings(asOf, run), entries);
  }

  lemma SmallRotation(asOf: string, run: Yaml)
    ensures RotationOf(SmallSettings(asOf, run)).Ok?
  {
    LookupAt(SmallSettings(asOf, run), 7);
    LookupAt(SmallSettings(asOf, run), 8);
    var entries := SmallSettings(asOf, run)[8].1.entries;
    FourEntries(entries);
    RotationReads(SmallSettings(asOf, run), entries);
  }

  lemma OneIsNormal()
    ensures DecimalSetting(YInt(1), Positive, HardCap).Ok?
  {
    var a := Amount(1, 0);
    assert Reduce(a) == a;
    assert Shift(1, 0) == 1 && |Numeral(1)| == 1;
  }

  lemma NoTargets(asOf: string, run: Yaml)
    ensures !NamesTargets(SmallSettings(asOf, run))
  {
  }

  lemma CombinedBuilds(context: RunContext, sourceIdentity: string, universe: UniverseProjection,
                       asOf: Result<string, Blocked>, sourceRun: Result<Option<string>, Blocked>,
                       hardCap: Result<string, Blocked>, shortlist: Result<Shortlist, Blocked>,
                       rotation: Result<Rotation, Blocked>, perRun: Result<PerRun, Blocked>,
                       maxNew: Result<MaxNew, Blocked>, constraints: Result<Constraints, Blocked>)
    requires asOf.Ok? && sourceRun.Ok? && hardCap.Ok? && shortlist.Ok? && rotation.Ok? && perRun.Ok? && maxNew.Ok?
    requires constraints.Ok?
    ensures var r := CombinePolicy(context, sourceIdentity, universe, asOf, sourceRun, hardCap, shortlist, rotation,
                                   perRun, maxNew, constraints);
            r.Ok? && r.value.asOf == asOf.value && r.value.maxNew == maxNew.value
            && r.value.constraints == constraints.value
  {
  }

  lemma SmallTimes(asOf: string, run: Yaml, e: Environment)
    requires IsDateText(asOf) && DateKey(asOf) <= e.context.Date()
    ensures PolicyAsOf(Get(SmallSettings(asOf, run), AsOf), e.context.Date()) == Ok(asOf)
    ensures Get(SmallSettings(asOf, run), RunTimestampEt) == run
    ensures Get(SmallSettings(asOf, run), HardCap) == YInt(1)
  {
    SmallRules(asOf, run);
  }

  lemma SmallAssembles(settings: Settings, asOf: string, sourceIdentity: string, universe: UniverseProjection,
                       e: Environment)
    requires PolicyAsOf(Get(settings, AsOf), e.context.Date()) == Ok(asOf)
    requires SourceRun(Get(settings, RunTimestampEt), e.context, e.eastern, e.padsYears).Ok?
    requires DecimalSetting(Get(settings, HardCap), Positive, HardCap).Ok?
    requires ShortlistOf(settings).Ok? && RotationOf(settings).Ok? && PerRunOf(settings).Ok?
    requires MaxNewOf(settings) == Ok(MaxNew(Unavailable, None, None))
    requires ConstraintsOf(settings) == Ok(Constraints(Unavailable, None, None, None, None, None, None))
    ensures var r := AssemblePolicy(settings, sourceIdentity, universe, e.context, e.eastern, e.padsYears);
            r.Ok? && r.value.asOf == asOf && r.value.maxNew.status.Unavailable?
            && r.value.constraints.status.Unavailable?
  {
    CombinedBuilds(e.context, sourceIdentity, universe,
                   PolicyAsOf(Get(settings, AsOf), e.context.Date()),
                   SourceRun(Get(settings, RunTimestampEt), e.context, e.eastern, e.padsYears),
                   DecimalSetting(Get(settings, HardCap), Positive, HardCap),
                   ShortlistOf(settings), RotationOf(settings), PerRunOf(settings), MaxNewOf(settings),
                   ConstraintsOf(settings));
  }

  lemma SmallParts(asOf: string, run: Yaml, sourceIdentity: string, universe: UniverseProjection, e: Environment)
    requires IsDateText(asOf) && DateKey(asOf) <= e.context.Date()
    requires SourceRun(run, e.context, e.eastern, e.padsYears).Ok?
    ensures var r := AssemblePolicy(SmallSettings(asOf, run), sourceIdentity, universe, e.context, e.eastern,
                                    e.padsYears);
            r.Ok? && r.value.asOf == asOf && r.value.maxNew.status.Unavailable?
            && r.value.constraints.status.Unavailable?
  {
    SmallTimes(asOf, run, e);
    SmallOptions(asOf, run);
    SmallShortlist(asOf, run);
    SmallRotation(asOf, run);
    OneIsNormal();
    SmallAssembles(SmallSettings(asOf, run), asOf, sourceIdentity, universe, e);
  }

  lemma PolicyBuilds(settings: Settings, sourceIdentity: string, e: Environment)
    requires !NamesTargets(settings) && BuildUniverse(settings, sourceIdentity, e.identifyUniverse).Ok?
    requires forall p :: e.identifyPolicy(p).Some?
    ensures var r := AssemblePolicy(settings, sourceIdentity,
                                    BuildUniverse(settings, sourceIdentity, e.identifyUniverse).value,
                                    e.context, e.eastern, e.padsYears);
            r.Ok? ==> BuiltPolicy(settings, sourceIdentity, e)
                        == Ok(WithPolicyGaps(r.value).(identity := e.identifyPolicy(WithPolicyGaps(r.value)).value))
  {
  }

  /** These settings build, for any date up to the evaluation date and any source run the source accepts. */
  lemma SmallPolicyBuilds(asOf: string, run: Yaml, sourceIdentity: string, e: Environment)
    requires IdentitiesIgnoreSlots(e) && IsDateText(asOf) && DateKey(asOf) <= e.context.Date()
    requires SourceRun(run, e.context, e.eastern, e.padsYears).Ok?
    requires (forall u :: e.identifyUniverse(u).Some?) && (forall p :: e.identifyPolicy(p).Some?)
    ensures BuiltPolicy(SmallSettings(asOf, run), sourceIdentity, e).Ok?
    ensures var p := BuiltPolicy(SmallSettings(asOf, run), sourceIdentity, e).value;
            p.asOf == asOf && p.maxNew.status.Unavailable? && p.constraints.status.Unavailable?
  {
    var settings := SmallSettings(asOf, run);
    SmallUniverse(asOf, run, sourceIdentity);
    UniverseValidationRedundant(settings, sourceIdentity, e.identifyUniverse);
    NoTargets(asOf, run);
    SmallParts(asOf, run, sourceIdentity, BuildUniverse(settings, sourceIdentity, e.identifyUniverse).value, e);
    PolicyBuilds(settings, sourceIdentity, e);
  }

  /** A snapshot without a line: no header date, and no table to read. */
  lemma BareSnapshot(identity: string, p: Policy, e: Environment)
    requires forall q :: e.identifyPortfolio(q).Some?
    ensures BuiltPortfolio(Some(Source([], identity)), p, e).Ok?
    ensures var q := BuiltPortfolio(Some(Source([], identity)), p, e).value; SourceLimited(q) && OrdersLimited(q)
  {
    assert OpenBuyTable.AllWhere([], (l: string) => l == e.format.sectionStart) == [];
    assert OpenBuyTable.Section(e.format, []) == None;
  }

  /** The bound of twelve limitations is reached. */
  lemma TwelveReached(asOf: string, sourceIdentity: string, e: Environment)
    requires IdentitiesIgnoreSlots(e) && IsDateText(asOf) && DateKey(asOf) <= e.context.Date()
    requires (forall u :: e.identifyUniverse(u).Some?) && (forall p :: e.identifyPolicy(p).Some?)
    requires forall q :: e.identifyPortfolio(q).Some?
    requires PortfolioProjection.IsSha256(sourceIdentity)
    ensures BuiltPolicy(SmallSettings(asOf, YNull), sourceIdentity, e).Ok?
    ensures var p := BuiltPolicy(SmallSettings(asOf, YNull), sourceIdentity, e).value;
            && BuiltPortfolio(Some(Source([], sourceIdentity)), p, e).Ok?
            && var q := Some(BuiltPortfolio(Some(Source([], sourceIdentity)), p, e).value);
            && DeriveView(p, PresenceOf(q), q).Ok?
            && |DeriveView(p, PresenceOf(q), q).value.limitations| == 12
  {
    SmallPolicyBuilds(asOf, YNull, sourceIdentity, e);
    var p := BuiltPolicy(SmallSettings(asOf, YNull), sourceIdentity, e).value;
    BareSnapshot(sourceIdentity, p, e);
    var q := BuiltPortfolio(Some(Source([], sourceIdentity)), p, e).value;
    BuildersCompose(SmallSettings(asOf, YNull), sourceIdentity, true, Some(Source([], sourceIdentity)), e);
    TwelveExactly(p, Some(q));
  }

  /** A policy dated in a year below 1000 builds, derives, and then fails the view contract. */
  lemma EarlyYearRejected(sourceIdentity: string, e: Environment)
    requires IdentitiesIgnoreSlots(e) && e.context.Date() >= 999_12_31 && !e.padsYears
    requires (forall u :: e.identifyUniverse(u).Some?) && (forall p :: e.identifyPolicy(p).Some?)
    ensures BuiltPolicy(SmallSettings("0999-12-31", YNull), sourceIdentity, e).Ok?
    ensures var p := BuiltPolicy(SmallSettings("0999-12-31", YNull), sourceIdentity, e).value;
            && DeriveView(p, NotSupplied, None).Ok?
            && !ValidView(DeriveView(p, NotSupplied, None).value, false)
  {
    EarlyDate();
    SmallPolicyBuilds("0999-12-31", YNull, sourceIdentity, e);
    BuildersCompose(SmallSettings("0999-12-31", YNull), sourceIdentity, false, None, e);
  }

  lemma EarlyDate()
    ensures IsDateText("0999-12-31") && DateKey("0999-12-31") == 999_12_31 && !Reformats("0999-12-31", false)
  {
  }

  /** Midnight of the first day of 999, Eastern time by the sun, is 4:56:02 in UTC. */
  const EARLY_RUN: string := "0999-01-01 00:00 ET"
  const EARLY_UTC: Timestamps.Utc := Timestamps.UtcFields(999, 1, 1, 4, 56, 2, 0)

  /** A policy whose source ran in a year below 1000 builds, and then fails its own validator. */
  lemma EarlyRunRejected(asOf: string, sourceIdentity: string, e: Environment)
    requires IdentitiesIgnoreSlots(e) && IsDateText(asOf) && DateKey(asOf) <= e.context.Date() && !e.padsYears
    requires (forall u :: e.identifyUniverse(u).Some?) && (forall p :: e.identifyPolicy(p).Some?)
    requires e.eastern(EARLY_RUN) == OneInstant(EARLY_UTC)
             && Timestamps.Instant(EARLY_UTC) <= Timestamps.Instant(e.context.at)
    ensures BuiltPolicy(SmallSettings(asOf, YStr(EARLY_RUN)), sourceIdentity, e).Ok?
    ensures !ValidPolicy(BuiltPolicy(SmallSettings(asOf, YStr(EARLY_RUN)), sourceIdentity, e).value, e.padsYears,
                         e.identifyUniverse, e.identifyPolicy)
  {
    var settings := SmallSettings(asOf, YStr(EARLY_RUN));
    assert SourceRun(YStr(EARLY_RUN), e.context, e.eastern, e.padsYears).Ok?;
    assert !TimesReformat(YStr(EARLY_RUN), e.context, e.eastern, e.padsYears);
    SmallPolicyBuilds(asOf, YStr(EARLY_RUN), sourceIdentity, e);
    assert Universe.Get(settings, RunTimestampEt) == YStr(EARLY_RUN) by {
      SmallRules(asOf, YStr(EARLY_RUN));
    }
    BuiltPolicyIsValid(settings, sourceIdentity, e.context, e.eastern, e.padsYears, e.identifyUniverse,
                       e.identifyPolicy);
  }
}
