/**
 Deriving the analyst-visible evidence view from the validated projections
 (mmi/analyst_visible_evidence_view.py).
 */
module AnalystView {
  import opened Outcomes
  import opened GapCodes
  import Universe
  import opened PolicyProjection
  import opened PortfolioProjection

  const MAXIMUM_SOURCE_BOUND_LIMITATIONS: nat := 12
  const MAXIMUM_OBSERVATIONS: nat := 256

  datatype ViewError = ComponentCorrelationInvalid | UnknownUpstreamLimitation | ObservationClassificationConflict

  datatype Instrument = Instrument(ticker: string, role: Universe.Role)

  datatype PolicyView = PolicyView(asOf: string, benchmarks: seq<string>, instruments: seq<Instrument>)

  datatype Observation = Observation(ticker: string, classification: Classification)

  /** Whether a portfolio was supplied with the evidence, and whether its source was there. */
  datatype Presence = NotSupplied | SourceAbsent | SourceBound

  datatype PortfolioView =
    | NotSuppliedView
    | PresentView(presence: Presence, sourceDate: Option<string>, openStatus: OpenStatus,
                  observations: seq<Observation>)

  datatype Owner = PolicyOwner | EvidenceOwner | PortfolioOwner

  /** `code` is the place of the output code in the translation table. */
  datatype Limitation = Limitation(owner: Owner, code: nat, tickers: seq<string>)

  datatype View = View(policy: PolicyView, portfolio: PortfolioView, limitations: seq<Limitation>)

  // ----- the translation table -----

  datatype Upstream =
    | FromPolicy(policyCode: GapCode)
    | FromEvidence
    | FromPortfolio(portfolioCode: PortfolioGapCode)

  const EVIDENCE_PLACE: nat := 11
  const OUTSIDE_PLACE: nat := 15

  /** Where the table lists an upstream code; None when it does not. */
  function Place(u: Upstream): (p: Option<nat>)
    ensures p.Some? ==> p.value <= OUTSIDE_PLACE
  {
    match u
    case FromPolicy(c) => if IsUniverseCode(c) then None else Some(Position(c) - 2)
    case FromEvidence => Some(EVIDENCE_PLACE)
    case FromPortfolio(c) =>
      match c
      case SourceMissing => Some(12)
      case SourceTimestampUnavailable => Some(13)
      case OpenBuyOrdersParseFailed => Some(14)
      case OpenBuyOrderOutsidePolicyUniverse => Some(OUTSIDE_PLACE)
      case Uncovered(_) => None
  }

  function OwnerOf(u: Upstream): Owner {
    match u
    case FromPolicy(_) => PolicyOwner
    case FromEvidence => EvidenceOwner
    case FromPortfolio(_) => PortfolioOwner
  }

  // ----- the policy view -----

  predicate Named(instruments: seq<Instrument>, ticker: string) {
    exists i :: 0 <= i < |instruments| && instruments[i].ticker == ticker
  }

  /** Appends one role group from k on; a ticker seen before fails. */
  function AddGroup(tickers: seq<string>, role: Universe.Role, k: nat,
                    done: seq<Instrument>): Result<seq<Instrument>, ViewError>
    requires k <= |tickers|
    decreases |tickers| - k
  {
    if k == |tickers| then Ok(done)
    else if Named(done, tickers[k]) then Err(ComponentCorrelationInvalid)
    else AddGroup(tickers, role, k + 1, done + [Instrument(tickers[k], role)])
  }

  method AppendGroup(tickers: seq<string>, role: Universe.Role, before: seq<Instrument>)
    returns (r: Result<seq<Instrument>, ViewError>)
    ensures r == AddGroup(tickers, role, 0, before)
  {
    var instruments := before;
    for k := 0 to |tickers|
      invariant AddGroup(tickers, role, 0, before) == AddGroup(tickers, role, k, instruments)
    {
      if Named(instruments, tickers[k]) {
        return Err(ComponentCorrelationInvalid);
      }
      instruments := instruments + [Instrument(tickers[k], role)];
    }
    return Ok(instruments);
  }

  function InstrumentsOf(u: Universe.UniverseProjection): Result<seq<Instrument>, ViewError> {
    var core :- AddGroup(u.core, Universe.Core, 0, []);
    var satellite :- AddGroup(u.satellite, Universe.Satellite, 0, core);
    AddGroup(u.approved, Universe.ApprovedExtended, 0, satellite)
  }

  function DerivePolicyView(p: Policy): Result<PolicyView, ViewError> {
    var instruments :- InstrumentsOf(p.universe);
    var _ :- Check(|p.universe.benchmarks| == 1, ComponentCorrelationInvalid);
    var benchmark := p.universe.benchmarks[0];
    var _ :- Check(RoleOf(p.universe.roles, benchmark) == Some(Universe.Core) && Named(instruments, benchmark),
                   ComponentCorrelationInvalid);
    Ok(PolicyView(p.asOf, [benchmark], instruments))
  }

  // ----- observations -----

  function ClassSeen(observations: seq<Observation>, ticker: string): Option<Classification> {
    if observations == [] then None
    else if observations[0].ticker == ticker then Some(observations[0].classification)
    else ClassSeen(observations[1..], ticker)
  }

  datatype Seen = Seen(observations: seq<Observation>, outside: seq<string>)

  /** One observation a ticker, and the tickers outside the policy, from record k on. */
  function ObserveFrom(records: seq<Record>, k: nat, seen: Seen): Result<Seen, ViewError>
    requires k <= |records|
    decreases |records| - k
  {
    if k == |records| then Ok(seen)
    else
      var r := records[k];
      match ClassSeen(seen.observations, r.ticker)
      case Some(before) =>
        if before != r.classification then Err(ObservationClassificationConflict) else ObserveFrom(records, k + 1, seen)
      case None =>
        ObserveFrom(records, k + 1,
                    Seen(seen.observations + [Observation(r.ticker, r.classification)],
                         if r.classification.OutsidePolicyUniverse? then seen.outside + [r.ticker] else seen.outside))
  }

  method Observe(records: seq<Record>) returns (r: Result<Seen, ViewError>)
    ensures r == ObserveFrom(records, 0, Seen([], []))
  {
    var observations: seq<Observation> := [];
    var outside: seq<string> := [];
    for k := 0 to |records|
      invariant ObserveFrom(records, 0, Seen([], [])) == ObserveFrom(records, k, Seen(observations, outside))
    {
      var record := records[k];
      var before := ClassSeen(observations, record.ticker);
      if before.Some? {
        if before.value != record.classification {
          return Err(ObservationClassificationConflict);
        }
      } else {
        observations := observations + [Observation(record.ticker, record.classification)];
        if record.classification.OutsidePolicyUniverse? {
          outside := outside + [record.ticker];
        }
      }
    }
    return Ok(Seen(observations, outside));
  }

  function DeriveObservations(q: Portfolio): Result<Seen, ViewError> {
    var seen :- ObserveFrom(q.records, 0, Seen([], []));
    if |seen.observations| > MAXIMUM_OBSERVATIONS then Err(ComponentCorrelationInvalid) else Ok(seen)
  }

  datatype DerivedPortfolio = DerivedPortfolio(view: PortfolioView, outside: seq<string>)

  function DerivePortfolioView(presence: Presence, portfolio: Option<Portfolio>): Result<DerivedPortfolio, ViewError> {
    match presence
    case NotSupplied =>
      if portfolio.Some? then Err(ComponentCorrelationInvalid) else Ok(DerivedPortfolio(NotSuppliedView, []))
    case SourceAbsent =>
      if portfolio.None? then Err(ComponentCorrelationInvalid)
      else
        var q := portfolio.value;
        if q.sourceDate.Some? || q.openStatus != OpenSourceAbsent || q.records != []
        then Err(ComponentCorrelationInvalid)
        else Ok(DerivedPortfolio(PresentView(presence, None, OpenSourceAbsent, []), []))
    case SourceBound =>
      if portfolio.None? then Err(ComponentCorrelationInvalid)
      else
        var q := portfolio.value;
        var seen :- DeriveObservations(q);
        if (q.openStatus.OpenParseFailed? && seen.observations != []) || q.openStatus.OpenSourceAbsent?
        then Err(ComponentCorrelationInvalid)
        else Ok(DerivedPortfolio(PresentView(presence, q.sourceDate, q.openStatus, seen.observations), seen.outside))
  }

  // ----- limitations -----

  predicate HasCode(limitations: seq<Limitation>, code: nat) {
    exists i :: 0 <= i < |limitations| && limitations[i].code == code
  }

  function Append(done: seq<Limitation>, u: Upstream, tickers: seq<string>): Result<seq<Limitation>, ViewError> {
    match Place(u)
    case None => Err(UnknownUpstreamLimitation)
    case Some(place) =>
      if HasCode(done, place) then Err(ComponentCorrelationInvalid)
      else Ok(done + [Limitation(OwnerOf(u), place, tickers)])
  }

  /** Policy gaps from k on: the universe's own are not visible, the others carry no ticker. */
  function PolicyLimitations(gaps: seq<Universe.Gap>, k: nat, done: seq<Limitation>): Result<seq<Limitation>, ViewError>
    requires k <= |gaps|
    decreases |gaps| - k
  {
    if k == |gaps| then Ok(done)
    else if IsUniverseCode(gaps[k].code) then PolicyLimitations(gaps, k + 1, done)
    else if gaps[k].tickers != [] then Err(ComponentCorrelationInvalid)
    else
      var more :- Append(done, FromPolicy(gaps[k].code), []);
      PolicyLimitations(gaps, k + 1, more)
  }

  /** Portfolio gaps from k on: static ones show as coverage, and outside tickers are repeated exactly. */
  function PortfolioLimitations(gaps: seq<PortfolioGap>, outside: seq<string>, k: nat, done: seq<Limitation>)
    : Result<seq<Limitation>, ViewError>
    requires k <= |gaps|
    decreases |gaps| - k
  {
    if k == |gaps| then Ok(done)
    else
      var gap := gaps[k];
      if gap.code.Uncovered? then
        if gap.tickers != [] then Err(ComponentCorrelationInvalid) else PortfolioLimitations(gaps, outside, k + 1, done)
      else if gap.code.OpenBuyOrderOutsidePolicyUniverse? then
        if gap.tickers == [] || gap.tickers != outside then Err(ComponentCorrelationInvalid)
        else
          var more :- Append(done, FromPortfolio(gap.code), gap.tickers);
          PortfolioLimitations(gaps, outside, k + 1, more)
      else if gap.tickers != [] then Err(ComponentCorrelationInvalid)
      else
        var more :- Append(done, FromPortfolio(gap.code), []);
        PortfolioLimitations(gaps, outside, k + 1, more)
  }

  function TranslateLimitations(p: Policy, presence: Presence, portfolio: Option<Portfolio>, outside: seq<string>)
    : Result<seq<Limitation>, ViewError>
  {
    var policy :- PolicyLimitations(p.gaps, 0, []);
    var evidence :- if presence.NotSupplied? then Append(policy, FromEvidence, []) else Ok(policy);
    var all :- if portfolio.Some? then PortfolioLimitations(portfolio.value.gaps, outside, 0, evidence)
               else Ok(evidence);
    if all == [] || |all| > MAXIMUM_SOURCE_BOUND_LIMITATIONS then Err(ComponentCorrelationInvalid) else Ok(all)
  }

  method TranslatePolicyGaps(gaps: seq<Universe.Gap>) returns (r: Result<seq<Limitation>, ViewError>)
    ensures r == PolicyLimitations(gaps, 0, [])
  {
    var translated: seq<Limitation> := [];
    for k := 0 to |gaps|
      invariant PolicyLimitations(gaps, 0, []) == PolicyLimitations(gaps, k, translated)
    {
      if !IsUniverseCode(gaps[k].code) {
        if gaps[k].tickers != [] {
          return Err(ComponentCorrelationInvalid);
        }
        var more := Append(translated, FromPolicy(gaps[k].code), []);
        if more.Err? {
          return more;
        }
        translated := more.value;
      }
    }
    return Ok(translated);
  }

  method TranslatePortfolioGaps(gaps: seq<PortfolioGap>, outside: seq<string>, before: seq<Limitation>)
    returns (r: Result<seq<Limitation>, ViewError>)
    ensures r == PortfolioLimitations(gaps, outside, 0, before)
  {
    var translated := before;
    for k := 0 to |gaps|
      invariant PortfolioLimitations(gaps, outside, 0, before) == PortfolioLimitations(gaps, outside, k, translated)
    {
      var gap := gaps[k];
      var isOutside := gap.code.OpenBuyOrderOutsidePolicyUniverse?;
      if gap.code.Uncovered? {
        if gap.tickers != [] {
          return Err(ComponentCorrelationInvalid);
        }
      } else {
        if (isOutside && (gap.tickers == [] || gap.tickers != outside)) || (!isOutside && gap.tickers != []) {
          return Err(ComponentCorrelationInvalid);
        }
        var more := Append(translated, FromPortfolio(gap.code), gap.tickers);
        if more.Err? {
          return more;
        }
        translated := more.value;
      }
    }
    return Ok(translated);
  }

  // ----- the view -----

  function VisibleTickers(view: PolicyView, portfolio: PortfolioView): set<string> {
    (set x | x in view.instruments :: x.ticker)
    + if portfolio.PresentView? then set x | x in portfolio.observations :: x.ticker else {}
  }

  predicate AllVisible(limitations: seq<Limitation>, visible: set<string>) {
    forall l, t :: l in limitations && t in l.tickers ==> t in visible
  }

  function DeriveView(p: Policy, presence: Presence, portfolio: Option<Portfolio>): Result<View, ViewError> {
    var policyView :- DerivePolicyView(p);
    var derived :- DerivePortfolioView(presence, portfolio);
    var limitations :- TranslateLimitations(p, presence, portfolio, derived.outside);
    if !AllVisible(limitations, VisibleTickers(policyView, derived.view)) then Err(ComponentCorrelationInvalid)
    else Ok(View(policyView, derived.view, limitations))
  }
}
