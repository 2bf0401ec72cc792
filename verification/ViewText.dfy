/**
 The view as the JSON that its contract prints last of all (mmi/contracts.py), every constant text
 in place, and what its parts take.
 */
module ViewText {
  import opened Outcomes
  import opened Texts
  import opened JsonValues
  import opened PlainJson
  import opened ViewNames
  import opened Dates
  import SourceText
  import Universe
  import opened PortfolioProjection
  import opened AnalystView
  import opened ViewContract

  // ----- variable texts -----

  function RoleName(r: Universe.Role): PlainText {
    match r
    case Core => "CORE"
    case Satellite => "SATELLITE"
    case ApprovedExtended => "APPROVED_EXTENDED"
  }

  function ClassName(c: Classification): PlainText {
    match c
    case InPolicy(role) => RoleName(role)
    case OutsidePolicyUniverse => "OUTSIDE_POLICY_UNIVERSE"
  }

  function PresenceName(p: Presence): PlainText {
    match p
    case NotSupplied => "NOT_SUPPLIED"
    case SourceAbsent => "PRESENT_VALIDATED_SOURCE_ABSENT"
    case SourceBound => "PRESENT_SOURCE_BOUND_VALIDATED"
  }

  function OpenStatusName(status: OpenStatus): PlainText {
    match status
    case OpenSourceAbsent => "SOURCE_ABSENT"
    case OpenSourceValidated => "SOURCE_VALIDATED"
    case OpenParseFailed => "PARSE_FAILED"
  }

  function OwnerName(owner: Owner): PlainText {
    match owner
    case PolicyOwner => "POLICY_PROJECTION"
    case EvidenceOwner => "EVIDENCE_BUNDLE"
    case PortfolioOwner => "PORTFOLIO_PROJECTION"
  }

  /** The output code at a place of the table: that of the upstream code, marked as the view's. */
  function CodeName(place: nat): PlainText {
    Joined("VIEW_", Joined(CodePrefix(OwnerAt(place)), CodeStem(place)))
  }

  function CodePrefix(owner: Owner): PlainText {
    match owner
    case PolicyOwner => "POLICY_"
    case EvidenceOwner => "EVIDENCE_"
    case PortfolioOwner => "PORTFOLIO_"
  }

  /** Any text; only plain ones are ever in a valid view. */
  function AnyWord(s: string): Json {
    Str(Ascii(s))
  }

  // ----- the parts -----

  function InstrumentJson(n: Names, x: Instrument): Json {
    Object([Field(n.ticker, AnyWord(x.ticker)), Field(n.role, Word(RoleName(x.role)))])
  }

  function Instruments(n: Names, xs: seq<Instrument>): (r: seq<Json>)
    ensures |r| == |xs| && forall i :: 0 <= i < |r| ==> r[i] == InstrumentJson(n, xs[i])
  {
    seq(|xs|, i requires 0 <= i < |xs| => InstrumentJson(n, xs[i]))
  }

  function ObservationJson(n: Names, x: Observation): Json {
    Object([Field(n.ticker, AnyWord(x.ticker)), Field(n.classification, Word(ClassName(x.classification)))])
  }

  function Observed(n: Names, xs: seq<Observation>): (r: seq<Json>)
    ensures |r| == |xs| && forall i :: 0 <= i < |r| ==> r[i] == ObservationJson(n, xs[i])
  {
    seq(|xs|, i requires 0 <= i < |xs| => ObservationJson(n, xs[i]))
  }

  function Words(ss: seq<string>): (r: seq<Json>)
    ensures |r| == |ss| && forall i :: 0 <= i < |r| ==> r[i] == AnyWord(ss[i])
  {
    seq(|ss|, i requires 0 <= i < |ss| => AnyWord(ss[i]))
  }

  function LimitationJson(n: Names, l: Limitation): Json {
    Object([Field(n.owner, Word(OwnerName(l.owner))), Field(n.code, Word(CodeName(l.code))),
            Field(n.affected, Arr(Words(l.tickers)))])
  }

  function Limitations(n: Names, ls: seq<Limitation>): (r: seq<Json>)
    ensures |r| == |ls| && forall i :: 0 <= i < |r| ==> r[i] == LimitationJson(n, ls[i])
  {
    seq(|ls|, i requires 0 <= i < |ls| => LimitationJson(n, ls[i]))
  }

  function PolicyFields(n: Names, asOf: Json, policyMethod: Json, benchmarks: Json, instruments: Json, activation: Json,
                        availability: Json, noWeights: Json): seq<Field>
  {
    [ Field(n.asOf, asOf), Field(n.policyMethod, policyMethod), Field(n.benchmarks, benchmarks),
      Field(n.instruments, instruments) ]
    + [Field(n.activation, activation), Field(n.availability, availability), Field(n.noWeights, noWeights)]
  }

  function PolicyJson(n: Names, v: PolicyView): Json {
    Object(PolicyFields(n, AnyWord(v.asOf), Word(n.methodValue), Arr(Words(v.benchmarks)),
                        Arr(Instruments(n, v.instruments)),
                        Word(n.activationValue), Word(n.availabilityValue), Word(n.noWeightsValue)))
  }

  /** Ten areas: what is there is text without structure, or nothing. */
  function CoverageFields(n: Names, unstructured: Json, unavailable: Json): seq<Field> {
    [ Field(n.holdings, unstructured), Field(n.cash, unavailable), Field(n.deployableCash, unavailable),
      Field(n.openSells, unstructured) ]
    + ([ Field(n.taxLots, unstructured), Field(n.holdingDates, unavailable), Field(n.gainsLosses, unavailable),
         Field(n.weights, unavailable) ]
       + [Field(n.navConcentration, unavailable), Field(n.lookThrough, unavailable)])
  }

  function CoverageJson(n: Names): Json {
    Object(CoverageFields(n, Word(n.unstructured), Word(n.unavailableValue)))
  }

  function DateJson(date: Option<string>): Json {
    if date.None? then Null else AnyWord(date.value)
  }

  function PortfolioFields(n: Names, presence: Json, date: Json, openStatus: Json, observations: Json,
                           coverage: Json): seq<Field> {
    [ Field(n.presence, presence), Field(n.sourceDate, date), Field(n.openStatus, openStatus),
      Field(n.observations, observations) ]
    + [Field(n.coverage, coverage)]
  }

  function PortfolioJson(n: Names, v: PortfolioView): Json {
    match v
    case NotSuppliedView => Object([Field(n.presence, Word(PresenceName(NotSupplied)))])
    case PresentView(presence, sourceDate, openStatus, observations) =>
      Object(PortfolioFields(n, Word(PresenceName(presence)), DateJson(sourceDate), Word(OpenStatusName(openStatus)),
                             Arr(Observed(n, observations)), CoverageJson(n)))
  }

  /** What a view carries besides: its evaluation time, and the identities of its bundle and of itself. */
  datatype Header = Header(timestamp: Text, bundle: Text, identity: Text)

  function ViewFields(n: Names, version: Json, kind: Json, reportOnly: Json, authority: Json, timestamp: Json,
                      bundle: Json,
                      policy: Json, portfolio: Json, limitations: Json, completeness: Json, identity: Json): seq<Field>
  {
    [ Field(n.schemaVersion, version), Field(n.artifactKind, kind), Field(n.reportOnly, reportOnly),
      Field(n.authorityEffect, authority) ]
    + ([ Field(n.evaluationTimestamp, timestamp), Field(n.bundleIdentity, bundle), Field(n.policyView, policy),
         Field(n.portfolioView, portfolio) ]
       + [Field(n.limitations, limitations), Field(n.completeness, completeness), Field(n.viewIdentity, identity)])
  }

  function ViewJson(n: Names, v: View, h: Header): Json {
    Object(ViewFields(n, Word(n.schemaVersionValue), Word(n.artifactKindValue), Bool(true), Word(n.noAuthority),
                      Str(h.timestamp), Str(h.bundle), PolicyJson(n, v.policy), PortfolioJson(n, v.portfolio),
                      Arr(Limitations(n, v.limitations)), Word(n.completenessValue), Str(h.identity)))
  }

  // ----- texts that a valid view may hold -----

  lemma PlainTickers(t: string)
    requires SourceText.IsTicker(t)
    ensures PlainWord(t)
  {
  }

  lemma PlainDates(t: string)
    requires IsDateText(t)
    ensures PlainWord(t)
  {
  }
}
