/**
 The policy projection built from the strategy settings, its gaps, and the separately written
 semantic checks (mmi/policy_projection.py). Time-zone lookup is a parameter: the instant an
 Eastern wall-clock text names, when it names exactly one.
 */
module PolicyProjection {
  import opened Outcomes
  import opened Digits
  import opened Amounts
  import opened Decimals
  import opened Dates
  import opened Timestamps
  import opened GapCodes
  import opened Universe

  const MAXIMUM_COUNT: int := 256

  /** When the projection is evaluated; its timestamp text is that instant formatted. */
  datatype RunContext = RunContext(at: Utc) {
    /** The UTC date, as a date key. */
    function Date(): nat {
      DayOf(at)
    }
  }

  /** What an Eastern wall-clock text comes to: no such text, not exactly one instant, or one. */
  datatype EasternReading = Unreadable | NotOneInstant | OneInstant(utc: Utc)

  type EasternInstant = string -> EasternReading

  datatype ValueStatus = Unavailable | Validated

  datatype PerRun = PerRun(present: bool, usd: bool, amount: Option<string>)

  datatype MaxNew = MaxNew(status: ValueStatus, base: Option<int>, extended: Option<int>)

  datatype Shortlist = Shortlist(benchmarkCarrier: int, coreBufferMax: int, sectorTiltMax: int, extendedSleeveMax: int)

  datatype Rotation = Rotation(enabled: bool, sameRole: bool, minimumGap: int, keepRoleValid: bool, noOneRank: bool)

  datatype Constraints = Constraints(
    status: ValueStatus,
    sleeveCap: Option<string>,
    singleCap: Option<string>,
    activationMinimum: Option<string>,
    sameThemeCount: Option<int>,
    sameThemeBudget: Option<string>,
    distinctThemes: Option<bool>)

  datatype Policy = Policy(
    context: RunContext,
    sourceIdentity: string,
    asOf: string,
    sourceRun: Option<string>,
    universe: UniverseProjection,
    universeIdentity: string,
    hardCap: string,
    perRun: PerRun,
    shortlist: Shortlist,
    maxNew: MaxNew,
    constraints: Constraints,
    rotation: Rotation,
    gaps: seq<Gap>,
    identity: string)

  type IdentifyPolicy = Policy -> Option<string>

  ghost predicate PolicyIgnoresSlot(identify: IdentifyPolicy) {
    forall p: Policy, id :: identify(p.(identity := id)) == identify(p)
  }

  // ----- reading settings -----

  function BoundedCount(v: Yaml, field: Key): (r: Result<int, Blocked>)
    ensures r.Ok? ==> 0 <= r.value <= MAXIMUM_COUNT
  {
    if v.YInt? && 0 <= v.n <= MAXIMUM_COUNT then Ok(v.n) else Err(Invalid(field))
  }

  function Boolean(v: Yaml, field: Key): Result<bool, Blocked> {
    if v.YBool? then Ok(v.b) else Err(Invalid(field))
  }

  /** Bounds a decimal setting is held to, besides not being negative. */
  datatype Limit = NonNegative | Positive | AtMostOne

  predicate Within(a: Amount, limit: Limit) {
    && a.units >= 0
    && (limit.Positive? ==> a.units > 0)
    && (limit.AtMostOne? ==> a.units <= Pow10(a.scale))
  }

  function SettingAmount(v: Yaml): Option<Amount> {
    match v
    case YInt(n) => Some(Amount(n, 0))
    case YDecimal(d) => if d.Finite? then Some(DecimalAmount(d)) else None
    case _ => None
  }

  function DecimalSetting(v: Yaml, limit: Limit, field: Key): Result<string, Blocked> {
    match SettingAmount(v)
    case None => Err(Invalid(field))
    case Some(a) =>
      if !Within(a, limit) then Err(Invalid(field))
      else
        match NormalizedAmount(a)
        case Err(_) => Err(Invalid(field))
        case Ok(text) => Ok(text)
  }

  function PolicyAsOf(v: Yaml, date: nat): Result<string, Blocked> {
    if !v.YStr? || !IsDateText(v.s) then Err(Invalid(AsOf))
    else if DateKey(v.s) > date then Err(Future(AsOf))
    else Ok(v.s)
  }

  function SourceRun(v: Yaml, context: RunContext, eastern: EasternInstant,
                     padsYears: bool): Result<Option<string>, Blocked> {
    if v.YNull? then Ok(None)
    else if !v.YStr? then Err(Invalid(RunTimestampEt))
    else
      match eastern(v.s)
      case Unreadable => Err(Invalid(RunTimestampEt))
      case NotOneInstant => Err(Ambiguous(RunTimestampEt))
      case OneInstant(utc) =>
        if Instant(utc) > Instant(context.at) then Err(Future(RunTimestampEt)) else Ok(Some(Format(utc, padsYears)))
  }

  const SHORTLIST_KEYS: set<Key> := {BenchmarkCarrier, DiversifiedCoreBufferMax, SectorAlphaTiltMax,
                                     ExtendedMinoritySleeveMax}

  function ShortlistOf(settings: Settings): Result<Shortlist, Blocked> {
    var v := Get(settings, ShortlistRule);
    if !v.YMap? || Keys(v.entries) != SHORTLIST_KEYS then Err(Invalid(ShortlistRule))
    else
      CombineShortlist(
        BoundedCount(Get(v.entries, BenchmarkCarrier), ShortlistRule),
        BoundedCount(Get(v.entries, DiversifiedCoreBufferMax), ShortlistRule),
        BoundedCount(Get(v.entries, SectorAlphaTiltMax), ShortlistRule),
        BoundedCount(Get(v.entries, ExtendedMinoritySleeveMax), ShortlistRule))
  }

  function CombineShortlist(carrier: Result<int, Blocked>, buffer: Result<int, Blocked>, tilt: Result<int, Blocked>,
                            sleeve: Result<int, Blocked>): Result<Shortlist, Blocked>
  {
    var a :- carrier;
    var b :- buffer;
    var c :- tilt;
    var d :- sleeve;
    if a < 1 then Err(Invalid(ShortlistRule)) else Ok(Shortlist(a, b, c, d))
  }

  const ROTATION_KEYS: set<Key> := {RequireSameRole, MinScoreGap, KeepRoleValidHolding, NoOneRankChangeRotation}

  function RotationOf(settings: Settings): Result<Rotation, Blocked> {
    var enabled :- Boolean(Get(settings, RotationEnabled), RotationEnabled);
    var v := Get(settings, RotationGuardrails);
    if !v.YMap? || Keys(v.entries) != ROTATION_KEYS then Err(Invalid(RotationGuardrails))
    else
      CombineRotation(
        enabled,
        Boolean(Get(v.entries, RequireSameRole), RotationGuardrails),
        BoundedCount(Get(v.entries, MinScoreGap), RotationGuardrails),
        Boolean(Get(v.entries, KeepRoleValidHolding), RotationGuardrails),
        Boolean(Get(v.entries, NoOneRankChangeRotation), RotationGuardrails))
  }

  function CombineRotation(enabled: bool, sameRole: Result<bool, Blocked>, gap: Result<int, Blocked>,
                           keep: Result<bool, Blocked>, oneRank: Result<bool, Blocked>): Result<Rotation, Blocked>
  {
    var a :- sameRole;
    var b :- gap;
    var c :- keep;
    var d :- oneRank;
    Ok(Rotation(enabled, a, b, c, d))
  }

  function PerRunOf(settings: Settings): Result<PerRun, Blocked> {
    match Lookup(settings, PerRunBudget)
    case None => Ok(PerRun(false, false, None))
    case Some(v) =>
      var amount :- DecimalSetting(v, NonNegative, PerRunBudget);
      Ok(PerRun(true, true, Some(amount)))
  }

  function MaxNewOf(settings: Settings): Result<MaxNew, Blocked> {
    match Lookup(settings, MaxNewTickers)
    case None => Ok(MaxNew(Unavailable, None, None))
    case Some(v) =>
      var _ :- Check(v.YMap? && Keys(v.entries) == {BaseNewTickers, ExtendedNewTickers}, Invalid(MaxNewTickers));
      var base :- BoundedCount(Get(v.entries, BaseNewTickers), MaxNewTickers);
      var extended :- BoundedCount(Get(v.entries, ExtendedNewTickers), MaxNewTickers);
      Ok(MaxNew(Validated, Some(base), Some(extended)))
  }

  const CONSTRAINT_KEYS: set<Key> :=
    {SleeveCap, SingleEtfCap, ActivationMinimum, SameThemeCount, SameThemeBudget, RequireDistinctThemes}

  function ConstraintsOf(settings: Settings): Result<Constraints, Blocked> {
    match Lookup(settings, ExtendedConstraints)
    case None => Ok(Constraints(Unavailable, None, None, None, None, None, None))
    case Some(v) =>
      if !v.YMap? || !(CONSTRAINT_KEYS <= Keys(v.entries)) then Err(Invalid(ExtendedConstraints))
      else
        CombineConstraints(
          DecimalSetting(Get(v.entries, SleeveCap), AtMostOne, ExtendedConstraints),
          DecimalSetting(Get(v.entries, SingleEtfCap), AtMostOne, ExtendedConstraints),
          DecimalSetting(Get(v.entries, ActivationMinimum), AtMostOne, ExtendedConstraints),
          BoundedCount(Get(v.entries, SameThemeCount), ExtendedConstraints),
          DecimalSetting(Get(v.entries, SameThemeBudget), AtMostOne, ExtendedConstraints),
          Boolean(Get(v.entries, RequireDistinctThemes), ExtendedConstraints))
  }

  function CombineConstraints(sleeve: Result<string, Blocked>, single: Result<string, Blocked>,
                              activation: Result<string, Blocked>, count: Result<int, Blocked>,
                              budget: Result<string, Blocked>,
                              distinct: Result<bool, Blocked>): Result<Constraints, Blocked>
  {
    var a :- sleeve;
    var b :- single;
    var c :- activation;
    var d :- count;
    var e :- budget;
    var f :- distinct;
    Ok(Constraints(Validated, Some(a), Some(b), Some(c), Some(d), Some(e), Some(f)))
  }

  // ----- gaps -----

  function PolicyGap(code: GapCode, sourceIdentity: string): Gap {
    Gap(code, [], sourceIdentity)
  }

  /** Gaps every policy projection has, in the order they are appended. */
  const ALWAYS: seq<GapCode> :=
    [ CashModelUnavailable, PortfolioNavConcentrationUnavailable, LookthroughExposureUnavailable,
      TurnoverEnforcementIncomplete, MinimumHoldingEnforcementIncomplete, TaxLotEnforcementUnavailable,
      SellEligibilityIncomplete ]

  /** Codes of the gaps that depend on which settings are there, in the order they are appended. */
  function ConditionalCodes(p: Policy): seq<GapCode> {
    [if p.perRun.present then PerRunBudgetApplicabilityUnverified else PerRunNewBuyBudgetUnavailable]
    + (if p.maxNew.status.Unavailable? then [MaxNewTickerRuleUnavailable] else [])
    + (if p.constraints.status.Unavailable? then [ExtendedActivationConstraintsUnavailable] else [])
  }

  function GapsFor(codes: seq<GapCode>, sourceIdentity: string): (r: seq<Gap>)
    ensures |r| == |codes| && forall i :: 0 <= i < |codes| ==> r[i] == PolicyGap(codes[i], sourceIdentity)
  {
    seq(|codes|, i requires 0 <= i < |codes| => PolicyGap(codes[i], sourceIdentity))
  }

  function ExpectedPolicyGaps(p: Policy): seq<Gap> {
    SortGaps(p.universe.gaps + GapsFor(ConditionalCodes(p) + ALWAYS, p.sourceIdentity))
  }

  method DeriveExpectedPolicyGaps(p: Policy) returns (gaps: seq<Gap>)
    ensures gaps == ExpectedPolicyGaps(p)
  {
    gaps := p.universe.gaps;
    ghost var codes: seq<GapCode> := [];
    if p.perRun.present {
      gaps := gaps + [PolicyGap(PerRunBudgetApplicabilityUnverified, p.sourceIdentity)];
    } else {
      gaps := gaps + [PolicyGap(PerRunNewBuyBudgetUnavailable, p.sourceIdentity)];
    }
    if p.maxNew.status.Unavailable? {
      gaps := gaps + [PolicyGap(MaxNewTickerRuleUnavailable, p.sourceIdentity)];
    }
    if p.constraints.status.Unavailable? {
      gaps := gaps + [PolicyGap(ExtendedActivationConstraintsUnavailable, p.sourceIdentity)];
    }
    assert gaps == p.universe.gaps + GapsFor(ConditionalCodes(p), p.sourceIdentity);
    for k := 0 to |ALWAYS|
      invariant gaps == p.universe.gaps + GapsFor(ConditionalCodes(p) + ALWAYS[..k], p.sourceIdentity)
    {
      gaps := gaps + [PolicyGap(ALWAYS[k], p.sourceIdentity)];
    }
    assert ALWAYS[..|ALWAYS|] == ALWAYS;
    gaps := SortGaps(gaps);
  }

  // ----- building -----

  predicate NamesTargets(settings: Settings) {
    Keys(settings) * {TargetWeights, TargetWeightsPresent, TargetAllocation, TargetAllocations} != {}
  }

  /** Each part in the order the source reads it; the first that is blocked blocks the policy. */
  function CombinePolicy(context: RunContext, sourceIdentity: string, universe: UniverseProjection,
                         asOf: Result<string, Blocked>, sourceRun: Result<Option<string>, Blocked>,
                         hardCap: Result<string, Blocked>, shortlist: Result<Shortlist, Blocked>,
                         rotation: Result<Rotation, Blocked>, perRun: Result<PerRun, Blocked>,
                         maxNew: Result<MaxNew, Blocked>,
                         constraints: Result<Constraints, Blocked>): Result<Policy, Blocked>
  {
    var a :- asOf;
    var b :- sourceRun;
    var c :- hardCap;
    var d :- shortlist;
    var e :- rotation;
    var f :- perRun;
    var g :- maxNew;
    var h :- constraints;
    Ok(Policy(context, sourceIdentity, a, b, universe, universe.identity, c, f, d, g, h, e, [], ""))
  }

  function AssemblePolicy(settings: Settings, sourceIdentity: string, universe: UniverseProjection, context: RunContext,
                          eastern: EasternInstant, padsYears: bool): Result<Policy, Blocked>
  {
    CombinePolicy(context, sourceIdentity, universe,
                  PolicyAsOf(Get(settings, AsOf), context.Date()),
                  SourceRun(Get(settings, RunTimestampEt), context, eastern, padsYears),
                  DecimalSetting(Get(settings, HardCap), Positive, HardCap),
                  ShortlistOf(settings), RotationOf(settings), PerRunOf(settings), MaxNewOf(settings),
                  ConstraintsOf(settings))
  }

  function WithPolicyGaps(bare: Policy): Policy {
    bare.(gaps := ExpectedPolicyGaps(bare))
  }

  /** Gaps, then the identity. */
  function FinishPolicy(assembled: Result<Policy, Blocked>, identify: IdentifyPolicy): Result<Policy, Failure> {
    match assembled
    case Err(why) => Err(SourceBlocked(why))
    case Ok(bare) =>
      match identify(WithPolicyGaps(bare))
      case None => Err(ContractFailure)
      case Some(id) => Ok(WithPolicyGaps(bare).(identity := id))
  }

  function BuildPolicy(settings: Settings, sourceIdentity: string, context: RunContext, eastern: EasternInstant,
                       padsYears: bool, identifyUniverse: IdentifyUniverse,
                       identify: IdentifyPolicy): Result<Policy, Failure>
  {
    if NamesTargets(settings) then Err(SourceBlocked(TargetWeightsProhibited))
    else
      match BuildUniverse(settings, sourceIdentity, identifyUniverse)
      case Err(e) => Err(e)
      case Ok(universe) => FinishPolicy(AssemblePolicy(settings, sourceIdentity, universe, context, eastern, padsYears),
                                        identify)
  }

  // ----- the separately written checks -----

  predicate ValidDecimalText(s: string, limit: Limit) {
    && IsDecimalText(s) && Normalized(TextInput(s)) == Ok(s) && Within(TextAmount(s), limit)
  }

  predicate ValidCount(n: int) {
    0 <= n <= MAXIMUM_COUNT
  }

  predicate ValidShortlist(s: Shortlist) {
    && ValidCount(s.benchmarkCarrier) && s.benchmarkCarrier >= 1
    && ValidCount(s.coreBufferMax) && ValidCount(s.sectorTiltMax) && ValidCount(s.extendedSleeveMax)
  }

  predicate ValidPerRun(r: PerRun) {
    if !r.present then !r.usd && r.amount == None
    else r.usd && r.amount.Some? && ValidDecimalText(r.amount.value, NonNegative)
  }

  predicate ValidMaxNew(m: MaxNew) {
    if m.status.Unavailable? then m.base == None && m.extended == None
    else m.base.Some? && m.extended.Some? && ValidCount(m.base.value) && ValidCount(m.extended.value)
  }

  predicate ValidConstraints(c: Constraints) {
    if c.status.Unavailable? then c == Constraints(Unavailable, None, None, None, None, None, None)
    else
      && c.sleeveCap.Some? && ValidDecimalText(c.sleeveCap.value, AtMostOne)
      && c.singleCap.Some? && ValidDecimalText(c.singleCap.value, AtMostOne)
      && c.activationMinimum.Some? && ValidDecimalText(c.activationMinimum.value, AtMostOne)
      && c.sameThemeBudget.Some? && ValidDecimalText(c.sameThemeBudget.value, AtMostOne)
      && c.sameThemeCount.Some? && ValidCount(c.sameThemeCount.value)
      && c.distinctThemes.Some?
  }

  /** The checks on the parts read from the settings. */
  predicate ValidParts(p: Policy) {
    && ValidDecimalText(p.hardCap, Positive)
    && ValidPerRun(p.perRun) && ValidShortlist(p.shortlist) && ValidMaxNew(p.maxNew) && ValidConstraints(p.constraints)
    && ValidCount(p.rotation.minimumGap)
    && IsDateText(p.asOf) && DateKey(p.asOf) <= p.context.Date()
  }

  /** The timestamp texts parsed again, and the two dates compared with what that of the evaluation parses to. */
  predicate ValidTimes(p: Policy, padsYears: bool) {
    var evaluation := ParseUtc(Format(p.context.at, padsYears));
    && evaluation.Some?
    && IsDateText(p.asOf) && DateKey(p.asOf) <= DayOf(evaluation.value)
    && (p.sourceRun.Some? ==>
          ParseUtc(p.sourceRun.value).Some?
          && Instant(ParseUtc(p.sourceRun.value).value) <= Instant(evaluation.value))
  }

  predicate ValidPolicy(p: Policy, padsYears: bool, identifyUniverse: IdentifyUniverse, identify: IdentifyPolicy) {
    ValidTimes(p, padsYears) && ValidOtherwise(p, identifyUniverse, identify)
  }

  /** Every check but those on the timestamp texts. */
  predicate ValidOtherwise(p: Policy, identifyUniverse: IdentifyUniverse, identify: IdentifyPolicy) {
    && ValidUniverse(p.universe, identifyUniverse)
    && p.universeIdentity == p.universe.identity && p.sourceIdentity == p.universe.sourceIdentity
    && ValidParts(p)
    && p.gaps == ExpectedPolicyGaps(p)
    && identify(p) == Some(p.identity)
  }

  lemma SameWithin(a: Amount, b: Amount, limit: Limit)
    requires Same(a, b) && Within(a, limit)
    ensures Within(b, limit)
  {
    var p, q := Pow10(a.scale), Pow10(b.scale);
    assert a.units * q == b.units * p;
    SignOfProduct(a.units, q);
    SignOfProduct(b.units, p);
    if limit.AtMostOne? {
      Ordered(a.units, p, q);
      assert b.units * p <= p * q;
      Cancelled(b.units, q, p);
    }
  }

  lemma Cancelled(x: int, y: int, p: int)
    requires p > 0 && x * p <= p * y
    ensures x <= y
  {
    assert x > y ==> (x - y) * p > 0;
  }

  lemma SignOfProduct(x: int, p: nat)
    requires p > 0
    ensures x * p >= 0 <==> x >= 0
    ensures x * p > 0 <==> x > 0
  {
  }

  lemma Ordered(x: int, p: int, q: nat)
    requires x <= p
    ensures x * q <= p * q
  {
  }

  /** A decimal setting keeps its bounds through normalization. */
  lemma DecimalSettingValid(v: Yaml, limit: Limit, field: Key)
    requires DecimalSetting(v, limit, field).Ok?
    ensures ValidDecimalText(DecimalSetting(v, limit, field).value, limit)
  {
    var a := SettingAmount(v).value;
    var r := Reduce(a);
    RenderedAmount(r);
    SameReduce(a);
    SameWithin(a, r, limit);
    SameIffReduced(a, r);
    AmountsDecide(r, a);
    SameIffReduced(r, a);
  }

  lemma CombinedConstraintsValid(sleeve: Result<string, Blocked>, single: Result<string, Blocked>,
                                 activation: Result<string, Blocked>, count: Result<int, Blocked>,
                                 budget: Result<string, Blocked>, distinct: Result<bool, Blocked>)
    requires sleeve.Ok? ==> ValidDecimalText(sleeve.value, AtMostOne)
    requires single.Ok? ==> ValidDecimalText(single.value, AtMostOne)
    requires activation.Ok? ==> ValidDecimalText(activation.value, AtMostOne)
    requires budget.Ok? ==> ValidDecimalText(budget.value, AtMostOne)
    requires count.Ok? ==> ValidCount(count.value)
    requires CombineConstraints(sleeve, single, activation, count, budget, distinct).Ok?
    ensures ValidConstraints(CombineConstraints(sleeve, single, activation, count, budget, distinct).value)
  {
  }

  lemma AnyDecimalSettingValid(v: Yaml, limit: Limit, field: Key)
    ensures DecimalSetting(v, limit, field).Ok? ==> ValidDecimalText(DecimalSetting(v, limit, field).value, limit)
  {
    if DecimalSetting(v, limit, field).Ok? {
      DecimalSettingValid(v, limit, field);
    }
  }

  lemma ConstraintsValid(settings: Settings)
    requires ConstraintsOf(settings).Ok?
    ensures ValidConstraints(ConstraintsOf(settings).value)
  {
    match Lookup(settings, ExtendedConstraints) {
      case None =>
      case Some(v) =>
        AnyDecimalSettingValid(Get(v.entries, SleeveCap), AtMostOne, ExtendedConstraints);
        AnyDecimalSettingValid(Get(v.entries, SingleEtfCap), AtMostOne, ExtendedConstraints);
        AnyDecimalSettingValid(Get(v.entries, ActivationMinimum), AtMostOne, ExtendedConstraints);
        AnyDecimalSettingValid(Get(v.entries, SameThemeBudget), AtMostOne, ExtendedConstraints);
        CombinedConstraintsValid(
          DecimalSetting(Get(v.entries, SleeveCap), AtMostOne, ExtendedConstraints),
          DecimalSetting(Get(v.entries, SingleEtfCap), AtMostOne, ExtendedConstraints),
          DecimalSetting(Get(v.entries, ActivationMinimum), AtMostOne, ExtendedConstraints),
          BoundedCount(Get(v.entries, SameThemeCount), ExtendedConstraints),
          DecimalSetting(Get(v.entries, SameThemeBudget), AtMostOne, ExtendedConstraints),
          Boolean(Get(v.entries, RequireDistinctThemes), ExtendedConstraints));
    }
  }

  lemma PerRunValid(settings: Settings)
    requires PerRunOf(settings).Ok?
    ensures ValidPerRun(PerRunOf(settings).value)
  {
    match Lookup(settings, PerRunBudget) {
      case None =>
      case Some(v) => DecimalSettingValid(v, NonNegative, PerRunBudget);
    }
  }

  lemma ShortlistValid(settings: Settings)
    ensures ShortlistOf(settings).Ok? ==> ValidShortlist(ShortlistOf(settings).value)
  {
  }

  lemma RotationValid(settings: Settings)
    ensures RotationOf(settings).Ok? ==> ValidCount(RotationOf(settings).value.minimumGap)
  {
  }

  lemma MaxNewValid(settings: Settings)
    ensures MaxNewOf(settings).Ok? ==> ValidMaxNew(MaxNewOf(settings).value)
  {
  }

  predicate DatedBy(r: Result<string, Blocked>, date: nat) {
    r.Ok? ==> IsDateText(r.value) && DateKey(r.value) <= date
  }

  /** A time of evaluation, and no source run or one, that their timestamp texts can be parsed back to. */
  predicate TimesReformat(v: Yaml, context: RunContext, eastern: EasternInstant, padsYears: bool) {
    padsYears || (context.at.year >= 1000 && (v.YStr? && eastern(v.s).OneInstant? ==> eastern(v.s).utc.year >= 1000))
  }

  lemma TimesRead(v: Yaml, p: Policy, eastern: EasternInstant, padsYears: bool)
    requires SourceRun(v, p.context, eastern, padsYears) == Ok(p.sourceRun)
    requires IsDateText(p.asOf) && DateKey(p.asOf) <= p.context.Date()
    ensures ValidTimes(p, padsYears) <==> TimesReformat(v, p.context, eastern, padsYears)
  {
    ParseFormatted(p.context.at, padsYears);
    if v.YStr? {
      ParseFormatted(eastern(v.s).utc, padsYears);
    }
  }

  lemma TimesValid(settings: Settings, context: RunContext)
    ensures DatedBy(PolicyAsOf(Get(settings, AsOf), context.Date()), context.Date())
  {
  }

  lemma CombinedPartsValid(context: RunContext, sourceIdentity: string, universe: UniverseProjection,
                           asOf: Result<string, Blocked>, sourceRun: Result<Option<string>, Blocked>,
                           hardCap: Result<string, Blocked>, shortlist: Result<Shortlist, Blocked>,
                           rotation: Result<Rotation, Blocked>, perRun: Result<PerRun, Blocked>,
                           maxNew: Result<MaxNew, Blocked>, constraints: Result<Constraints, Blocked>)
    requires DatedBy(asOf, context.Date())
    requires hardCap.Ok? ==> ValidDecimalText(hardCap.value, Positive)
    requires shortlist.Ok? ==> ValidShortlist(shortlist.value)
    requires rotation.Ok? ==> ValidCount(rotation.value.minimumGap)
    requires perRun.Ok? ==> ValidPerRun(perRun.value)
    requires maxNew.Ok? ==> ValidMaxNew(maxNew.value)
    requires constraints.Ok? ==> ValidConstraints(constraints.value)
    ensures var r := CombinePolicy(context, sourceIdentity, universe, asOf, sourceRun, hardCap, shortlist, rotation,
                                   perRun, maxNew, constraints);
            r.Ok? ==> ValidParts(r.value) && r.value.universe == universe && r.value.sourceIdentity == sourceIdentity
                      && r.value.universeIdentity == universe.identity && r.value.context == context
                      && sourceRun == Ok(r.value.sourceRun)
  {
  }

  predicate Assembled(r: Result<Policy, Blocked>, universe: UniverseProjection, sourceIdentity: string,
                      context: RunContext, sourceRun: Result<Option<string>, Blocked>) {
    r.Ok? ==> ValidParts(r.value) && r.value.universe == universe && r.value.sourceIdentity == sourceIdentity
              && r.value.universeIdentity == universe.identity && r.value.context == context
              && sourceRun == Ok(r.value.sourceRun)
  }

  lemma AssembledParts(settings: Settings, sourceIdentity: string, universe: UniverseProjection, context: RunContext,
                       eastern: EasternInstant, padsYears: bool)
    ensures Assembled(AssemblePolicy(settings, sourceIdentity, universe, context, eastern, padsYears), universe,
                      sourceIdentity, context, SourceRun(Get(settings, RunTimestampEt), context, eastern, padsYears))
  {
    AnyDecimalSettingValid(Get(settings, HardCap), Positive, HardCap);
    if PerRunOf(settings).Ok? {
      PerRunValid(settings);
    }
    if ConstraintsOf(settings).Ok? {
      ConstraintsValid(settings);
    }
    ShortlistValid(settings);
    RotationValid(settings);
    MaxNewValid(settings);
    TimesValid(settings, context);
    CombinedPartsValid(context, sourceIdentity, universe,
                       PolicyAsOf(Get(settings, AsOf), context.Date()),
                       SourceRun(Get(settings, RunTimestampEt), context, eastern, padsYears),
                       DecimalSetting(Get(settings, HardCap), Positive, HardCap),
                       ShortlistOf(settings), RotationOf(settings), PerRunOf(settings), MaxNewOf(settings),
                       ConstraintsOf(settings));
  }

  lemma FinishedIsValid(assembled: Result<Policy, Blocked>, universe: UniverseProjection, sourceIdentity: string,
                        context: RunContext, sourceRun: Result<Option<string>, Blocked>,
                        identifyUniverse: IdentifyUniverse, identify: IdentifyPolicy)
    requires PolicyIgnoresSlot(identify) && Assembled(assembled, universe, sourceIdentity, context, sourceRun)
    requires ValidUniverse(universe, identifyUniverse) && universe.sourceIdentity == sourceIdentity
    requires FinishPolicy(assembled, identify).Ok?
    ensures var p := FinishPolicy(assembled, identify).value;
            && ValidOtherwise(p, identifyUniverse, identify) && p.universe == universe
            && p.context == context && sourceRun == Ok(p.sourceRun)
  {
    var p := WithPolicyGaps(assembled.value);
    assert identify(p.(identity := identify(p).value)) == identify(p);
  }

  /**
   Every policy projection the builder yields has a partitioned universe and passes every semantic
   check but those on its timestamp texts; and those it passes exactly when the platform pads years,
   or the years of the evaluation and of the source run, if there is one, take four digits.
   */
  lemma BuiltPolicyIsValid(settings: Settings, sourceIdentity: string, context: RunContext, eastern: EasternInstant,
                           padsYears: bool, identifyUniverse: IdentifyUniverse, identify: IdentifyPolicy)
    requires IgnoresSlot(identifyUniverse) && PolicyIgnoresSlot(identify)
    requires BuildPolicy(settings, sourceIdentity, context, eastern, padsYears, identifyUniverse, identify).Ok?
    ensures var p := BuildPolicy(settings, sourceIdentity, context, eastern, padsYears, identifyUniverse,
                                 identify).value;
            && ValidOtherwise(p, identifyUniverse, identify) && Partitioned(p.universe)
            && (ValidPolicy(p, padsYears, identifyUniverse, identify)
                <==> TimesReformat(Get(settings, RunTimestampEt), context, eastern, padsYears))
  {
    UniverseValidationRedundant(settings, sourceIdentity, identifyUniverse);
    var universe := BuildUniverse(settings, sourceIdentity, identifyUniverse).value;
    AssembledParts(settings, sourceIdentity, universe, context, eastern, padsYears);
    FinishedIsValid(AssemblePolicy(settings, sourceIdentity, universe, context, eastern, padsYears), universe,
                    sourceIdentity, context,
                    SourceRun(Get(settings, RunTimestampEt), context, eastern, padsYears), identifyUniverse, identify);
    var p := BuildPolicy(settings, sourceIdentity, context, eastern, padsYears, identifyUniverse, identify).value;
    TimesRead(Get(settings, RunTimestampEt), p, eastern, padsYears);
  }

  // ----- the gaps of a policy -----

  lemma CodesDistinct(p: Policy)
    ensures forall i, j :: 0 <= i < j < |ConditionalCodes(p) + ALWAYS| ==>
              (ConditionalCodes(p) + ALWAYS)[i] != (ConditionalCodes(p) + ALWAYS)[j]
    ensures forall i :: 0 <= i < |ConditionalCodes(p) + ALWAYS| ==> !IsUniverseCode((ConditionalCodes(p) + ALWAYS)[i])
  {
    var c := ConditionalCodes(p);
    assert forall i :: 0 <= i < |c| ==> c[i] !in ALWAYS && !IsUniverseCode(c[i]);
    assert forall i, j :: 0 <= i < j < |c| ==> c[i] != c[j];
    assert forall i, j :: 0 <= i < j < |ALWAYS| ==> ALWAYS[i] != ALWAYS[j];
  }

  lemma SortOne(g: Gap)
    ensures SortGaps([g]) == [g]
  {
    assert [g][..0] == [];
    assert SortGaps([]) == [];
  }

  lemma UniverseGapsShape(u: UniverseProjection)
    ensures |ExpectedUniverseGaps(u)| <= 1
    ensures forall g :: g in ExpectedUniverseGaps(u) ==> IsUniverseCode(g.code)
  {
    SortOne(Gap(ExtendedThemeMapUnavailable, u.approved, u.sourceIdentity));
    SortOne(Gap(ExtendedEtfThemeMappingIncomplete, u.withoutTheme, u.sourceIdentity));
  }

  lemma RawDistinct(a: seq<Gap>, b: seq<Gap>)
    requires |a| <= 1 && DistinctCodes(b)
    requires forall x, y :: x in a && y in b ==> x.code != y.code
    ensures DistinctCodes(a + b)
  {
  }

  lemma SortedMembers(raw: seq<Gap>)
    ensures forall g :: g in SortGaps(raw) <==> g in raw
    ensures |SortGaps(raw)| == |raw|
  {
    SortGapsSorts(raw);
    assert forall g :: g in SortGaps(raw) <==> g in multiset(SortGaps(raw));
    assert forall g :: g in raw <==> g in multiset(raw);
    assert |multiset(SortGaps(raw))| == |multiset(raw)|;
  }

  /** The policy's own gaps, before sorting. */
  function OwnGaps(p: Policy): seq<Gap> {
    GapsFor(ConditionalCodes(p) + ALWAYS, p.sourceIdentity)
  }

  lemma OwnGapsShape(p: Policy)
    ensures DistinctCodes(OwnGaps(p))
    ensures forall g :: g in OwnGaps(p) ==> g.tickers == [] && !IsUniverseCode(g.code)
    ensures forall c :: c in ConditionalCodes(p) + ALWAYS <==> exists g :: g in OwnGaps(p) && g.code == c
  {
    CodesDistinct(p);
    var codes, own := ConditionalCodes(p) + ALWAYS, OwnGaps(p);
    forall c | c in codes ensures exists g :: g in own && g.code == c {
      var i :| 0 <= i < |codes| && codes[i] == c;
      assert own[i] in own;
    }
  }

  /**
   The gaps of a policy: in strictly increasing text order, with no ticker but on the
   universe's own gap, and of the policy codes exactly the constant and the conditional ones.
   */
  lemma PolicyGapsExactly(p: Policy)
    requires p.universe.gaps == ExpectedUniverseGaps(p.universe)
    ensures StrictGaps(ExpectedPolicyGaps(p))
    ensures forall g :: g in ExpectedPolicyGaps(p) ==> IsUniverseCode(g.code) || g in OwnGaps(p)
    ensures forall g :: g in OwnGaps(p) ==> g in ExpectedPolicyGaps(p)
    ensures |ExpectedPolicyGaps(p)| == |p.universe.gaps| + |ConditionalCodes(p)| + |ALWAYS|
  {
    UniverseGapsShape(p.universe);
    OwnGapsShape(p);
    RawDistinct(p.universe.gaps, OwnGaps(p));
    SortGapsStrict(p.universe.gaps + OwnGaps(p));
    SortedMembers(p.universe.gaps + OwnGaps(p));
  }
}
