/**
 The instrument universe read from the strategy settings, and the separately written checks on
 it (`_build_universe_projection`, `_derive_expected_universe_gaps` and
 `_validate_universe_semantics` in mmi/policy_projection.py).
 */
module Universe {
  import opened Outcomes
  import opened Decimals
  import opened SourceText
  import opened GapCodes

  const MAXIMUM_UNIVERSE_MEMBERS: nat := 256

  // ----- parsed settings -----

  /** Mapping keys: those the policy knows, and any other text. */
  datatype Key =
    | CoreUniverse
    | SatelliteUniverse
    | ApprovedExtendedList
    | ThemeMap
    | ThemeBucket
    | Benchmark
    | AsOf
    | RunTimestampEt
    | HardCap
    | PerRunBudget
    | ShortlistRule
    | BenchmarkCarrier
    | DiversifiedCoreBufferMax
    | SectorAlphaTiltMax
    | ExtendedMinoritySleeveMax
    | RotationEnabled
    | RotationGuardrails
    | RequireSameRole
    | MinScoreGap
    | KeepRoleValidHolding
    | NoOneRankChangeRotation
    | MaxNewTickers
    | BaseNewTickers
    | ExtendedNewTickers
    | ExtendedConstraints
    | SleeveCap
    | SingleEtfCap
    | ActivationMinimum
    | SameThemeCount
    | SameThemeBudget
    | RequireDistinctThemes
    | TargetWeights
    | TargetWeightsPresent
    | TargetAllocation
    | TargetAllocations
    | Named(text: string)

  /** A value of the strict YAML subset the settings are read with. */
  datatype Yaml =
    | YNull
    | YBool(b: bool)
    | YInt(n: int)
    | YDecimal(d: Decimal)
    | YStr(s: string)
    | YList(items: seq<Yaml>)
    | YMap(entries: seq<(Key, Yaml)>)

  type Settings = seq<(Key, Yaml)>

  function Lookup(entries: seq<(Key, Yaml)>, key: Key): Option<Yaml> {
    if entries == [] then None
    else if entries[0].0 == key then Some(entries[0].1)
    else Lookup(entries[1..], key)
  }

  function Keys(entries: seq<(Key, Yaml)>): set<Key> {
    set e | e in entries :: e.0
  }

  /** `value.get(key)`. */
  function Get(entries: seq<(Key, Yaml)>, key: Key): Yaml {
    match Lookup(entries, key)
    case None => YNull
    case Some(v) => v
  }

  datatype Blocked =
    | Missing(field: Key)
    | Invalid(field: Key)
    | Empty(field: Key)
    | Duplicate(field: Key)
    | Future(field: Key)
    | Ambiguous(field: Key)
    | MemberLimitExceeded
    | CoreSatelliteOverlap
    | ExtendedBaseOverlap
    | BenchmarkNotCore
    | ThemeKeyOutsideApproved
    | TargetWeightsProhibited

  /** Blocked by the source, or failed against the projection's own contract. */
  datatype Failure = SourceBlocked(why: Blocked) | ContractFailure

  // ----- gaps -----

  datatype Gap = Gap(code: GapCode, tickers: seq<string>, sourceIdentity: string)

  /** Into a list sorted by code text, after the gaps that come before it or tie with it. */
  function InsertGap(g: Gap, gaps: seq<Gap>): seq<Gap> {
    if gaps == [] then [g]
    else if Position(gaps[0].code) <= Position(g.code) then [gaps[0]] + InsertGap(g, gaps[1..])
    else [g] + gaps
  }

  function SortGaps(gaps: seq<Gap>): seq<Gap> {
    if gaps == [] then [] else InsertGap(gaps[|gaps| - 1], SortGaps(gaps[..|gaps| - 1]))
  }

  predicate SortedGaps(gaps: seq<Gap>) {
    forall i, j :: 0 <= i < j < |gaps| ==> Position(gaps[i].code) <= Position(gaps[j].code)
  }

  lemma {:induction false} InsertGapKeeps(g: Gap, gaps: seq<Gap>)
    ensures multiset(InsertGap(g, gaps)) == multiset(gaps) + multiset{g}
  {
    if gaps != [] && Position(gaps[0].code) <= Position(g.code) {
      InsertGapKeeps(g, gaps[1..]);
      assert gaps == [gaps[0]] + gaps[1..];
    }
  }

  lemma PrependSorts(g: Gap, gaps: seq<Gap>)
    requires SortedGaps(gaps) && forall x :: x in gaps ==> Position(g.code) <= Position(x.code)
    ensures SortedGaps([g] + gaps)
  {
  }

  lemma {:induction false} InsertGapSorts(g: Gap, gaps: seq<Gap>)
    requires SortedGaps(gaps)
    ensures SortedGaps(InsertGap(g, gaps))
  {
    if gaps == [] {
    } else if Position(gaps[0].code) <= Position(g.code) {
      InsertGapSorts(g, gaps[1..]);
      InsertGapKeeps(g, gaps[1..]);
      forall x | x in InsertGap(g, gaps[1..]) ensures Position(gaps[0].code) <= Position(x.code) {
        assert x in multiset(InsertGap(g, gaps[1..]));
      }
      PrependSorts(gaps[0], InsertGap(g, gaps[1..]));
    } else {
      PrependSorts(g, gaps);
    }
  }

  /** Sorting keeps the gaps and puts their codes in text order. */
  lemma {:induction false} SortGapsSorts(gaps: seq<Gap>)
    ensures SortedGaps(SortGaps(gaps)) && multiset(SortGaps(gaps)) == multiset(gaps)
  {
    if gaps != [] {
      var front, last := gaps[..|gaps| - 1], gaps[|gaps| - 1];
      SortGapsSorts(front);
      InsertGapSorts(last, SortGaps(front));
      InsertGapKeeps(last, SortGaps(front));
      assert gaps == front + [last];
    }
  }

  // ----- distinct codes sort strictly -----

  predicate StrictGaps(gaps: seq<Gap>) {
    forall i, j :: 0 <= i < j < |gaps| ==> Position(gaps[i].code) < Position(gaps[j].code)
  }

  predicate DistinctCodes(gaps: seq<Gap>) {
    forall i, j :: 0 <= i < j < |gaps| ==> gaps[i].code != gaps[j].code
  }

  lemma PrependStrict(g: Gap, gaps: seq<Gap>)
    requires StrictGaps(gaps) && forall x :: x in gaps ==> Position(g.code) < Position(x.code)
    ensures StrictGaps([g] + gaps)
  {
  }

  lemma {:induction false} InsertGapStrict(g: Gap, gaps: seq<Gap>)
    requires StrictGaps(gaps) && forall x :: x in gaps ==> Position(x.code) != Position(g.code)
    ensures StrictGaps(InsertGap(g, gaps))
  {
    if gaps == [] {
    } else if Position(gaps[0].code) <= Position(g.code) {
      InsertGapStrict(g, gaps[1..]);
      InsertGapKeeps(g, gaps[1..]);
      forall x | x in InsertGap(g, gaps[1..]) ensures Position(gaps[0].code) < Position(x.code) {
        assert x in multiset(InsertGap(g, gaps[1..]));
      }
      PrependStrict(gaps[0], InsertGap(g, gaps[1..]));
    } else {
      PrependStrict(g, gaps);
    }
  }

  /** Gaps with distinct codes sort into strictly increasing text order. */
  lemma {:induction false} SortGapsStrict(gaps: seq<Gap>)
    requires DistinctCodes(gaps)
    ensures StrictGaps(SortGaps(gaps))
  {
    if gaps != [] {
      var front, last := gaps[..|gaps| - 1], gaps[|gaps| - 1];
      SortGapsStrict(front);
      SortGapsSorts(front);
      forall x | x in SortGaps(front) ensures Position(x.code) != Position(last.code) {
        assert x in multiset(front);
        if Position(x.code) == Position(last.code) {
          PositionsDiffer(x.code, last.code);
        }
      }
      InsertGapStrict(last, SortGaps(front));
    }
  }

  // ----- the universe -----

  datatype Role = Core | Satellite | ApprovedExtended

  datatype ThemeStatus = SourceMapUnavailable | SourceMapPresent

  datatype UniverseProjection = UniverseProjection(
    sourceIdentity: string,
    core: seq<string>,
    satellite: seq<string>,
    approved: seq<string>,
    benchmarks: seq<string>,
    roles: map<string, Role>,
    themes: map<string, string>,
    withoutTheme: seq<string>,
    themeStatus: ThemeStatus,
    approvedPresent: bool,
    scope: seq<string>,
    gaps: seq<Gap>,
    identity: string)

  /** The canonical identity of everything but the identity slot; None when it cannot be encoded. */
  type IdentifyUniverse = UniverseProjection -> Option<string>

  ghost predicate IgnoresSlot(identify: IdentifyUniverse) {
    forall u: UniverseProjection, id :: identify(u.(identity := id)) == identify(u)
  }

  predicate Distinct(ts: seq<string>) {
    forall i, j :: 0 <= i < j < |ts| ==> ts[i] != ts[j]
  }

  predicate Disjoint(a: seq<string>, b: seq<string>) {
    forall t :: t in a ==> t !in b
  }

  predicate IsTickerValue(v: Yaml) {
    v.YStr? && IsTicker(v.s)
  }

  function TickerTexts(items: seq<Yaml>): (r: seq<string>)
    requires forall i :: 0 <= i < |items| ==> IsTickerValue(items[i])
    ensures |r| == |items| && forall i :: 0 <= i < |items| ==> IsTicker(r[i])
  {
    seq(|items|, i requires 0 <= i < |items| && IsTickerValue(items[i]) => items[i].s)
  }

  function TickerList(settings: Settings, field: Key, nonempty: bool): Result<seq<string>, Blocked> {
    match Lookup(settings, field)
    case None => Err(Missing(field))
    case Some(YList(items)) =>
      if nonempty && items == [] then Err(Empty(field))
      else if |items| > MAXIMUM_UNIVERSE_MEMBERS then Err(MemberLimitExceeded)
      else if exists i :: 0 <= i < |items| && !IsTickerValue(items[i]) then Err(Invalid(field))
      else if !Distinct(TickerTexts(items)) then Err(Duplicate(field))
      else Ok(TickerTexts(items))
    case Some(_) => Err(Invalid(field))
  }

  predicate IsTheme(s: string) {
    && 1 <= |s| <= 64 && 'a' <= s[0] <= 'z'
    && forall i :: 1 <= i < |s| ==> 'a' <= s[i] <= 'z' || IsAsciiDigit(s[i]) || s[i] == '_'
  }

  /** One entry of the theme map. */
  function ThemeEntry(entry: (Key, Yaml), approved: seq<string>): Result<(string, string), Blocked> {
    if !entry.0.Named? || !IsTicker(entry.0.text) then Err(Invalid(ThemeMap))
    else if entry.0.text !in approved then Err(ThemeKeyOutsideApproved)
    else if !entry.1.YMap? || Keys(entry.1.entries) != {ThemeBucket} then Err(Invalid(ThemeMap))
    else
      var theme := Get(entry.1.entries, ThemeBucket);
      if !theme.YStr? || !IsTheme(theme.s) then Err(Invalid(ThemeMap)) else Ok((entry.0.text, theme.s))
  }

  function ThemesFrom(entries: seq<(Key, Yaml)>, approved: seq<string>, k: nat, themes: map<string, string>)
    : (r: Result<map<string, string>, Blocked>)
    requires k <= |entries|
    decreases |entries| - k
  {
    if k == |entries| then Ok(themes)
    else
      var (ticker, theme) :- ThemeEntry(entries[k], approved);
      ThemesFrom(entries, approved, k + 1, themes[ticker := theme])
  }

  method ReadThemes(entries: seq<(Key, Yaml)>, approved: seq<string>) returns (r: Result<map<string, string>, Blocked>)
    ensures r == ThemesFrom(entries, approved, 0, map[])
  {
    var themes: map<string, string> := map[];
    for k := 0 to |entries|
      invariant ThemesFrom(entries, approved, 0, map[]) == ThemesFrom(entries, approved, k, themes)
    {
      var entry := ThemeEntry(entries[k], approved);
      if entry.Err? {
        return Err(entry.error);
      }
      themes := themes[entry.value.0 := entry.value.1];
    }
    return Ok(themes);
  }

  function WithoutTheme(approved: seq<string>, themes: map<string, string>): (r: seq<string>)
    ensures forall t :: t in r <==> t in approved && t !in themes
  {
    if approved == [] then []
    else (if approved[0] in themes then [] else [approved[0]]) + WithoutTheme(approved[1..], themes)
  }

  /** `dict.update` with one role for every ticker. */
  function Assign(roles: map<string, Role>, tickers: seq<string>, role: Role): (r: map<string, Role>)
    ensures r.Keys == roles.Keys + set t | t in tickers
    ensures forall t :: t in r ==> r[t] == if t in tickers then role else roles[t]
  {
    roles + map t | t in tickers :: role
  }

  function RolesOf(core: seq<string>, satellite: seq<string>, approved: seq<string>): map<string, Role> {
    Assign(Assign(Assign(map[], core, Core), satellite, Satellite), approved, ApprovedExtended)
  }

  function ExpectedUniverseGaps(u: UniverseProjection): seq<Gap> {
    if u.themeStatus.SourceMapUnavailable? then
      SortGaps([Gap(ExtendedThemeMapUnavailable, u.approved, u.sourceIdentity)])
    else if u.withoutTheme != [] then
      SortGaps([Gap(ExtendedEtfThemeMappingIncomplete, u.withoutTheme, u.sourceIdentity)])
    else []
  }

  datatype Themes = Themes(status: ThemeStatus, byTicker: map<string, string>, without: seq<string>)

  function ThemesOf(settings: Settings, approved: seq<string>): Result<Themes, Blocked> {
    match Lookup(settings, ThemeMap)
    case None => Ok(Themes(SourceMapUnavailable, map[], approved))
    case Some(YMap(entries)) =>
      var byTicker :- ThemesFrom(entries, approved, 0, map[]);
      Ok(Themes(SourceMapPresent, byTicker, WithoutTheme(approved, byTicker)))
    case Some(_) => Err(Invalid(ThemeMap))
  }

  datatype Members = Members(core: seq<string>, satellite: seq<string>, approved: seq<string>)

  function MembersOf(settings: Settings): Result<Members, Blocked> {
    var core :- TickerList(settings, CoreUniverse, true);
    var satellite :- TickerList(settings, SatelliteUniverse, true);
    var approved :- TickerList(settings, ApprovedExtendedList, false);
    var _ :- Check(Disjoint(core, satellite), CoreSatelliteOverlap);
    var _ :- Check(Disjoint(approved, core) && Disjoint(approved, satellite), ExtendedBaseOverlap);
    var _ :- Check(|core + satellite + approved| <= MAXIMUM_UNIVERSE_MEMBERS, MemberLimitExceeded);
    Ok(Members(core, satellite, approved))
  }

  function BenchmarkOf(settings: Settings, core: seq<string>): Result<string, Blocked> {
    var benchmark := Get(settings, Benchmark);
    if !IsTickerValue(benchmark) then Err(Invalid(Benchmark))
    else if benchmark.s !in core then Err(BenchmarkNotCore)
    else Ok(benchmark.s)
  }

  function Compose(sourceIdentity: string, m: Members, benchmark: string, themes: Themes): UniverseProjection {
    UniverseProjection(sourceIdentity, m.core, m.satellite, m.approved, [benchmark],
                       RolesOf(m.core, m.satellite, m.approved),
                       themes.byTicker, themes.without, themes.status, m.approved != [],
                       m.core + m.satellite + m.approved, [], "")
  }

  /** The universe before its gaps and its identity are filled in. */
  function AssembleUniverse(settings: Settings, sourceIdentity: string): Result<UniverseProjection, Blocked> {
    var members :- MembersOf(settings);
    var benchmark :- BenchmarkOf(settings, members.core);
    var themes :- ThemesOf(settings, members.approved);
    Ok(Compose(sourceIdentity, members, benchmark, themes))
  }

  function WithGaps(bare: UniverseProjection): UniverseProjection {
    bare.(gaps := ExpectedUniverseGaps(bare))
  }

  /** Gaps, identity, and the final validation. */
  function FinishUniverse(assembled: Result<UniverseProjection, Blocked>, identify: IdentifyUniverse)
    : Result<UniverseProjection, Failure>
  {
    match assembled
    case Err(why) => Err(SourceBlocked(why))
    case Ok(bare) =>
      match identify(WithGaps(bare))
      case None => Err(ContractFailure)
      case Some(id) =>
        var identified := WithGaps(bare).(identity := id);
        if ValidUniverse(identified, identify) then Ok(identified) else Err(ContractFailure)
  }

  function BuildUniverse(settings: Settings, sourceIdentity: string, identify: IdentifyUniverse)
    : Result<UniverseProjection, Failure>
  {
    FinishUniverse(AssembleUniverse(settings, sourceIdentity), identify)
  }

  // ----- the separately written checks -----

  /** The checks on the members, the roles and the themes. */
  predicate ValidMembers(u: UniverseProjection) {
    && |u.benchmarks| == 1 && u.benchmarks[0] in u.core
    && u.scope == u.core + u.satellite + u.approved
    && u.roles == RolesOf(u.core, u.satellite, u.approved)
    && (forall t :: t in u.themes ==> t in u.approved)
    && u.withoutTheme == WithoutTheme(u.approved, u.themes)
    && (u.approvedPresent <==> u.approved != [])
    && (u.themeStatus.SourceMapUnavailable? ==> u.themes == map[] && u.withoutTheme == u.approved)
  }

  predicate ValidUniverse(u: UniverseProjection, identify: IdentifyUniverse) {
    ValidMembers(u) && u.gaps == ExpectedUniverseGaps(u) && identify(u) == Some(u.identity)
  }

  lemma {:induction false} NoThemesNoneMapped(approved: seq<string>)
    ensures WithoutTheme(approved, map[]) == approved
  {
    if approved != [] {
      NoThemesNoneMapped(approved[1..]);
    }
  }

  lemma {:induction false} ThemesAreApproved(entries: seq<(Key, Yaml)>, approved: seq<string>, k: nat,
                                             themes: map<string, string>)
    requires k <= |entries| && (forall t :: t in themes ==> t in approved)
    requires ThemesFrom(entries, approved, k, themes).Ok?
    ensures forall t :: t in ThemesFrom(entries, approved, k, themes).value ==> t in approved
    decreases |entries| - k
  {
    if k < |entries| {
      var (ticker, theme) := ThemeEntry(entries[k], approved).value;
      ThemesAreApproved(entries, approved, k + 1, themes[ticker := theme]);
    }
  }

  lemma ThemesHold(settings: Settings, approved: seq<string>)
    requires ThemesOf(settings, approved).Ok?
    ensures ThemesConsistent(ThemesOf(settings, approved).value, approved)
  {
    NoThemesNoneMapped(approved);
    match Lookup(settings, ThemeMap) {
      case Some(YMap(entries)) => ThemesAreApproved(entries, approved, 0, map[]);
      case _ =>
    }
  }

  predicate ThemesConsistent(themes: Themes, approved: seq<string>) {
    && (forall t :: t in themes.byTicker ==> t in approved)
    && themes.without == WithoutTheme(approved, themes.byTicker)
    && (themes.status.SourceMapUnavailable? ==> themes.byTicker == map[] && themes.without == approved)
  }

  // ----- a partition -----

  /** Core, satellite and extended are one list of distinct tickers, cut in three, with their roles. */
  ghost predicate Partitioned(u: UniverseProjection) {
    && u.scope == u.core + u.satellite + u.approved && Distinct(u.scope)
    && |u.scope| <= MAXIMUM_UNIVERSE_MEMBERS && u.core != [] && u.satellite != []
    && (forall t :: t in u.scope ==> IsTicker(t))
    && (forall t :: t in u.roles <==> t in u.scope)
    && (forall t :: t in u.roles ==> (u.roles[t] == Core <==> t in u.core))
    && (forall t :: t in u.roles ==> (u.roles[t] == Satellite <==> t in u.satellite))
    && (forall t :: t in u.roles ==> (u.roles[t] == ApprovedExtended <==> t in u.approved))
    && |u.benchmarks| == 1 && u.benchmarks[0] in u.core
  }

  lemma ConcatDistinct(a: seq<string>, b: seq<string>)
    requires Distinct(a) && Distinct(b) && Disjoint(a, b)
    ensures Distinct(a + b)
  {
    var c := a + b;
    forall i, j | 0 <= i < j < |c| ensures c[i] != c[j] {
      if i < |a| <= j {
        assert a[i] in a && b[j - |a|] in b;
      }
    }
  }

  lemma MembersAreDistinct(settings: Settings)
    requires MembersOf(settings).Ok?
    ensures var m := MembersOf(settings).value;
            && Distinct(m.core + m.satellite + m.approved)
               && |m.core + m.satellite + m.approved| <= MAXIMUM_UNIVERSE_MEMBERS
            && m.core != [] && m.satellite != []
            && Disjoint(m.core, m.satellite) && Disjoint(m.approved, m.core) && Disjoint(m.approved, m.satellite)
            && (forall t :: t in m.core + m.satellite + m.approved ==> IsTicker(t))
  {
    var m := MembersOf(settings).value;
    ConcatDistinct(m.core, m.satellite);
    ConcatDistinct(m.core + m.satellite, m.approved);
  }

  lemma ComposedIsPartitioned(sourceIdentity: string, m: Members, benchmark: string, themes: Themes)
    requires Distinct(m.core + m.satellite + m.approved)
             && |m.core + m.satellite + m.approved| <= MAXIMUM_UNIVERSE_MEMBERS
    requires m.core != [] && m.satellite != [] && benchmark in m.core
    requires Disjoint(m.core, m.satellite) && Disjoint(m.approved, m.core) && Disjoint(m.approved, m.satellite)
    requires forall t :: t in m.core + m.satellite + m.approved ==> IsTicker(t)
    ensures Partitioned(Compose(sourceIdentity, m, benchmark, themes))
  {
  }

  predicate Bare(u: UniverseProjection, sourceIdentity: string) {
    ValidMembers(u) && u.sourceIdentity == sourceIdentity
  }

  lemma ComposedIsBare(sourceIdentity: string, m: Members, benchmark: string, themes: Themes)
    requires benchmark in m.core && ThemesConsistent(themes, m.approved)
    ensures Bare(Compose(sourceIdentity, m, benchmark, themes), sourceIdentity)
  {
  }

  /** Whatever is assembled partitions its scope, and passes the checks on members already. */
  lemma UniverseIsPartitioned(settings: Settings, sourceIdentity: string)
    requires AssembleUniverse(settings, sourceIdentity).Ok?
    ensures Partitioned(AssembleUniverse(settings, sourceIdentity).value)
    ensures Bare(AssembleUniverse(settings, sourceIdentity).value, sourceIdentity)
  {
    MembersAreDistinct(settings);
    var m := MembersOf(settings).value;
    var benchmark, themes := BenchmarkOf(settings, m.core).value, ThemesOf(settings, m.approved).value;
    ThemesHold(settings, m.approved);
    ComposedIsPartitioned(sourceIdentity, m, benchmark, themes);
    ComposedIsBare(sourceIdentity, m, benchmark, themes);
  }

  lemma IdentityDoesNotPartition(bare: UniverseProjection, gaps: seq<Gap>, id: string)
    requires Partitioned(bare)
    ensures Partitioned(bare.(gaps := gaps, identity := id))
  {
  }

  lemma FinishedUniverse(bare: UniverseProjection, sourceIdentity: string, identify: IdentifyUniverse)
    requires IgnoresSlot(identify) && Bare(bare, sourceIdentity)
    ensures FinishUniverse(Ok(bare), identify) == match identify(WithGaps(bare)) {
                                                    case None => Err(ContractFailure)
                                                    case Some(id) => Ok(WithGaps(bare).(identity := id))
                                                  }
    ensures FinishUniverse(Ok(bare), identify).Ok? ==> ValidUniverse(FinishUniverse(Ok(bare), identify).value, identify)
  {
    if identify(WithGaps(bare)).Some? {
      assert identify(WithGaps(bare).(identity := identify(WithGaps(bare)).value)) == identify(WithGaps(bare));
    }
  }

  /**
   The final validation can never reject what was just assembled: a universe is built exactly
   when the settings assemble and an identity exists, and it is then valid and partitioned.
   */
  lemma UniverseValidationRedundant(settings: Settings, sourceIdentity: string, identify: IdentifyUniverse)
    requires IgnoresSlot(identify)
    ensures BuildUniverse(settings, sourceIdentity, identify)
         == match AssembleUniverse(settings, sourceIdentity) {
              case Err(why) => Err(SourceBlocked(why))
              case Ok(bare) =>
                match identify(WithGaps(bare)) {
                  case None => Err(ContractFailure)
                  case Some(id) => Ok(WithGaps(bare).(identity := id))
                }
            }
    ensures BuildUniverse(settings, sourceIdentity, identify).Ok? ==>
              var u := BuildUniverse(settings, sourceIdentity, identify).value;
              ValidUniverse(u, identify) && Partitioned(u) && u.sourceIdentity == sourceIdentity
  {
    if AssembleUniverse(settings, sourceIdentity).Ok? {
      UniverseIsPartitioned(settings, sourceIdentity);
      var bare := AssembleUniverse(settings, sourceIdentity).value;
      FinishedUniverse(bare, sourceIdentity, identify);
      if identify(WithGaps(bare)).Some? {
        IdentityDoesNotPartition(bare, ExpectedUniverseGaps(bare), identify(WithGaps(bare)).value);
      }
    }
  }
}
