/** The constant texts of the view (mmi/contracts.py), each of which prints as itself. */
module ViewNames {
  import opened PlainJson

  // ----- field names -----

  const SCHEMA_VERSION: PlainText := "schema_version"
  const ARTIFACT_KIND: PlainText := "artifact_kind"
  const REPORT_ONLY: PlainText := "report_only"
  const AUTHORITY_EFFECT: PlainText := "authority_effect"
  const EVALUATION_TIMESTAMP: PlainText := "evaluation_timestamp_utc"
  const BUNDLE_IDENTITY: PlainText := Joined("evidence_bundle_", "identity_sha256")
  const POLICY_VIEW: PlainText := "policy_view"
  const PORTFOLIO_VIEW: PlainText := "portfolio_view"
  const LIMITATIONS: PlainText := "known_view_limitations"
  const COMPLETENESS: PlainText := "view_completeness_status"
  const VIEW_IDENTITY: PlainText := Joined("analyst_visible_evidence_", "view_identity_sha256")
  const AS_OF: PlainText := "policy_as_of_date"
  const METHOD: PlainText := "policy_method"
  const BENCHMARKS: PlainText := Joined("benchmark_", "reference_instruments")
  const INSTRUMENTS: PlainText := "analysis_instruments"
  const ACTIVATION: PlainText := "extended_activation_status"
  const AVAILABILITY: PlainText := Joined("instrument_availability_", "observation_status")
  const NO_WEIGHTS: PlainText := "target_weights_absence_reason"
  const TICKER: PlainText := "ticker"
  const ROLE: PlainText := "policy_role"
  const CLASSIFICATION: PlainText := Joined("policy_", "membership_classification")
  const PRESENCE: PlainText := "presence_status"
  const SOURCE_DATE: PlainText := "portfolio_source_date"
  const OPEN_STATUS: PlainText := "open_buy_status"
  const OBSERVATIONS: PlainText := "open_buy_observations"
  const COVERAGE: PlainText := "fact_coverage_statuses"
  const HOLDINGS: PlainText := "holdings"
  const CASH: PlainText := "cash"
  const DEPLOYABLE_CASH: PlainText := "deployable_cash"
  const OPEN_SELLS: PlainText := "open_sells"
  const TAX_LOTS: PlainText := "tax_lots"
  const HOLDING_DATES: PlainText := "holding_dates"
  const GAINS_LOSSES: PlainText := "gains_losses"
  const WEIGHTS: PlainText := "weights"
  const NAV_CONCENTRATION: PlainText := "nav_concentration"
  const LOOK_THROUGH: PlainText := "look_through_exposure"
  const OWNER: PlainText := "owner"
  const CODE: PlainText := "code"
  const AFFECTED: PlainText := "affected_tickers"

  // ----- constant values -----

  const SCHEMA_VERSION_VALUE: PlainText := Joined("mmi_analyst_visible_", "evidence_view_v1")
  const ARTIFACT_KIND_VALUE: PlainText := Joined("MMI_ANALYST_", "VISIBLE_EVIDENCE_VIEW")
  const NO_AUTHORITY: PlainText := "NONE"
  const METHOD_VALUE: PlainText := Joined("BUDGET_SHORTLIST_ROTATION_", "WITHOUT_TARGET_WEIGHTS")
  const ACTIVATION_VALUE: PlainText := "NOT_EVALUATED_REPORT_ONLY"
  const AVAILABILITY_VALUE: PlainText := Joined("NOT_", "DETERMINISTICALLY_AVAILABLE")
  const NO_WEIGHTS_VALUE: PlainText := Joined("POLICY_METHOD_HAS_", "NO_TARGET_WEIGHTS")
  const COMPLETENESS_VALUE: PlainText := "PROJECTION_VALID_WITH_GAPS"
  const UNSTRUCTURED: PlainText := "UNSTRUCTURED_NOT_PROJECTED"
  const UNAVAILABLE_VALUE: PlainText := "UNAVAILABLE_NOT_PROJECTED"

  /** All of them, to be passed around without their letters. */
  datatype Names = Names(
    schemaVersion: PlainText, artifactKind: PlainText, reportOnly: PlainText, authorityEffect: PlainText,
    evaluationTimestamp: PlainText, bundleIdentity: PlainText, policyView: PlainText, portfolioView: PlainText,
    limitations: PlainText, completeness: PlainText, viewIdentity: PlainText, schemaVersionValue: PlainText,
    artifactKindValue: PlainText, noAuthority: PlainText, completenessValue: PlainText, asOf: PlainText,
    policyMethod: PlainText, benchmarks: PlainText, instruments: PlainText, activation: PlainText,
    availability: PlainText, noWeights: PlainText, methodValue: PlainText, activationValue: PlainText,
    availabilityValue: PlainText, noWeightsValue: PlainText, presence: PlainText, sourceDate: PlainText,
    openStatus: PlainText, observations: PlainText, coverage: PlainText, holdings: PlainText,
    cash: PlainText, deployableCash: PlainText, openSells: PlainText, taxLots: PlainText,
    holdingDates: PlainText, gainsLosses: PlainText, weights: PlainText, navConcentration: PlainText,
    lookThrough: PlainText, unstructured: PlainText, unavailableValue: PlainText, ticker: PlainText,
    role: PlainText, classification: PlainText, owner: PlainText, code: PlainText,
    affected: PlainText)

  const VIEW_NAMES: Names := Names(
    SCHEMA_VERSION, ARTIFACT_KIND, REPORT_ONLY, AUTHORITY_EFFECT, EVALUATION_TIMESTAMP,
    BUNDLE_IDENTITY, POLICY_VIEW, PORTFOLIO_VIEW, LIMITATIONS, COMPLETENESS,
    VIEW_IDENTITY, SCHEMA_VERSION_VALUE, ARTIFACT_KIND_VALUE, NO_AUTHORITY, COMPLETENESS_VALUE,
    AS_OF, METHOD, BENCHMARKS, INSTRUMENTS, ACTIVATION,
    AVAILABILITY, NO_WEIGHTS, METHOD_VALUE, ACTIVATION_VALUE, AVAILABILITY_VALUE,
    NO_WEIGHTS_VALUE, PRESENCE, SOURCE_DATE, OPEN_STATUS, OBSERVATIONS,
    COVERAGE, HOLDINGS, CASH, DEPLOYABLE_CASH, OPEN_SELLS,
    TAX_LOTS, HOLDING_DATES, GAINS_LOSSES, WEIGHTS, NAV_CONCENTRATION,
    LOOK_THROUGH, UNSTRUCTURED, UNAVAILABLE_VALUE, TICKER, ROLE,
    CLASSIFICATION, OWNER, CODE, AFFECTED)

  predicate TopSized(n: Names) {
    && |n.schemaVersion| == 14 && |n.artifactKind| == 13 && |n.reportOnly| == 11 && |n.authorityEffect| == 16
    && |n.evaluationTimestamp| == 24 && |n.bundleIdentity| == 31 && |n.policyView| == 11 && |n.portfolioView| == 14
    && |n.limitations| == 22 && |n.completeness| == 24 && |n.viewIdentity| == 45 && |n.schemaVersionValue| == 36
    && |n.artifactKindValue| == 33 && |n.noAuthority| == 4 && |n.completenessValue| == 26
  }

  predicate PolicySized(n: Names) {
    && |n.asOf| == 17 && |n.policyMethod| == 13 && |n.benchmarks| == 31 && |n.instruments| == 20
    && |n.activation| == 26 && |n.availability| == 42 && |n.noWeights| == 29 && |n.methodValue| == 48
    && |n.activationValue| == 25 && |n.availabilityValue| == 31 && |n.noWeightsValue| == 35
  }

  predicate PortfolioSized(n: Names) {
    && |n.presence| == 15 && |n.sourceDate| == 21 && |n.openStatus| == 15 && |n.observations| == 21
    && |n.coverage| == 22
  }

  predicate CoverageSized(n: Names) {
    && |n.holdings| == 8 && |n.cash| == 4 && |n.deployableCash| == 15 && |n.openSells| == 10
    && |n.taxLots| == 8 && |n.holdingDates| == 13 && |n.gainsLosses| == 12 && |n.weights| == 7
    && |n.navConcentration| == 17 && |n.lookThrough| == 21 && |n.unstructured| == 26 && |n.unavailableValue| == 25
  }

  predicate SmallSized(n: Names) {
    && |n.ticker| == 6 && |n.role| == 11 && |n.classification| == 32 && |n.owner| == 5
    && |n.code| == 4 && |n.affected| == 16
  }

  /** What the sizes of views need to know of them. */
  predicate Sized(n: Names) {
    TopSized(n) && PolicySized(n) && PortfolioSized(n) && CoverageSized(n) && SmallSized(n)
  }

  lemma TopNamesSized()
    ensures TopSized(VIEW_NAMES)
  {
  }

  lemma PolicyNamesSized()
    ensures PolicySized(VIEW_NAMES)
  {
  }

  lemma PortfolioNamesSized()
    ensures PortfolioSized(VIEW_NAMES)
  {
  }

  lemma CoverageNamesSized()
    ensures CoverageSized(VIEW_NAMES)
  {
  }

  lemma SmallNamesSized()
    ensures SmallSized(VIEW_NAMES)
  {
  }

  lemma ViewNamesSized()
    ensures Sized(VIEW_NAMES)
  {
    TopNamesSized();
    PolicyNamesSized();
    PortfolioNamesSized();
    CoverageNamesSized();
    SmallNamesSized();
  }

  // ----- the output codes, after the prefix of their owner -----

  const STEM_0: PlainText := "CASH_MODEL_UNAVAILABLE"
  const STEM_1: PlainText := Joined("EXTENDED_ACTIVATION_", "CONSTRAINTS_UNAVAILABLE")
  const STEM_2: PlainText := Joined("LOOKTHROUGH_", "EXPOSURE_UNAVAILABLE")
  const STEM_3: PlainText := Joined("MAX_NEW_", "TICKER_RULE_UNAVAILABLE")
  const STEM_4: PlainText := Joined("MINIMUM_HOLDING_", "ENFORCEMENT_INCOMPLETE")
  const STEM_5: PlainText := Joined("PER_RUN_", "BUDGET_APPLICABILITY_UNVERIFIED")
  const STEM_6: PlainText := Joined("PER_RUN_NEW_", "BUY_BUDGET_UNAVAILABLE")
  const STEM_7: PlainText := Joined("PORTFOLIO_NAV_", "CONCENTRATION_UNAVAILABLE")
  const STEM_8: PlainText := "SELL_ELIGIBILITY_INCOMPLETE"
  const STEM_9: PlainText := Joined("TAX_LOT_", "ENFORCEMENT_UNAVAILABLE")
  const STEM_10: PlainText := Joined("TURNOVER_", "ENFORCEMENT_INCOMPLETE")
  const STEM_11: PlainText := Joined("PORTFOLIO_COMPONENT_", "NOT_SUPPLIED")
  const STEM_12: PlainText := "SOURCE_MISSING"
  const STEM_13: PlainText := "SOURCE_TIMESTAMP_UNAVAILABLE"
  const STEM_14: PlainText := "OPEN_BUY_ORDERS_PARSE_FAILED"
  const STEM_15: PlainText := Joined("OPEN_BUY_ORDER_", "OUTSIDE_POLICY_UNIVERSE")

  function CodeStem(place: nat): PlainText {
    match place
    case 0 => STEM_0
    case 1 => STEM_1
    case 2 => STEM_2
    case 3 => STEM_3
    case 4 => STEM_4
    case 5 => STEM_5
    case 6 => STEM_6
    case 7 => STEM_7
    case 8 => STEM_8
    case 9 => STEM_9
    case 10 => STEM_10
    case 11 => STEM_11
    case 12 => STEM_12
    case 13 => STEM_13
    case 14 => STEM_14
    case _ => STEM_15
  }
}
