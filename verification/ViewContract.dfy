/**
 The view's own contract (`_validate_analyst_view_*` in mmi/contracts.py), and the proof that
 what the builders produce always derives and always lands inside it.
 */
module ViewContract {
  import opened Outcomes
  import opened Dates
  import SourceText
  import opened GapCodes
  import Universe
  import opened OpenBuyTable
  import OpenBuyRows
  import Commitments
  import opened PolicyProjection
  import opened PortfolioProjection
  import opened AnalystView

  const MAXIMUM_CONTRACT_LIMITATIONS: nat := 14
  const MAXIMUM_INSTRUMENTS: nat := 256

  function RoleOrder(r: Universe.Role): nat {
    match r
    case Core => 0
    case Satellite => 1
    case ApprovedExtended => 2
  }

  /** Owner the table gives a place. */
  function OwnerAt(place: nat): Owner {
    if place < EVIDENCE_PLACE then PolicyOwner else if place == EVIDENCE_PLACE then EvidenceOwner else PortfolioOwner
  }

  predicate DateAccepted(s: string, padsYears: bool) {
    IsDateText(s) && Reformats(s, padsYears)
  }

  predicate ValidInstruments(instruments: seq<Instrument>) {
    && 2 <= |instruments| <= MAXIMUM_INSTRUMENTS
    && (forall i :: 0 <= i < |instruments| ==> SourceText.IsTicker(instruments[i].ticker))
    && (forall i, j :: 0 <= i < j < |instruments| ==>
          RoleOrder(instruments[i].role) <= RoleOrder(instruments[j].role)
          && instruments[i].ticker != instruments[j].ticker)
    && (exists i :: 0 <= i < |instruments| && instruments[i].role == Universe.Core)
    && (exists i :: 0 <= i < |instruments| && instruments[i].role == Universe.Satellite)
  }

  predicate ValidPolicyView(v: PolicyView, padsYears: bool) {
    && DateAccepted(v.asOf, padsYears) && ValidInstruments(v.instruments)
    && |v.benchmarks| == 1 && SourceText.IsTicker(v.benchmarks[0])
    && exists i :: 0 <= i < |v.instruments| && v.instruments[i] == Instrument(v.benchmarks[0], Universe.Core)
  }

  predicate ValidObservations(observations: seq<Observation>) {
    && |observations| <= MAXIMUM_OBSERVATIONS
    && (forall i :: 0 <= i < |observations| ==> SourceText.IsTicker(observations[i].ticker))
    && forall i, j :: 0 <= i < j < |observations| ==> observations[i].ticker != observations[j].ticker
  }

  predicate ValidPortfolioView(v: PortfolioView, padsYears: bool) {
    match v
    case NotSuppliedView => true
    case PresentView(presence, sourceDate, openStatus, observations) =>
      && !presence.NotSupplied? && ValidObservations(observations)
      && (presence.SourceAbsent? ==> sourceDate == None && openStatus.OpenSourceAbsent? && observations == [])
      && (presence.SourceBound? ==>
            && (sourceDate.Some? ==> DateAccepted(sourceDate.value, padsYears))
            && !openStatus.OpenSourceAbsent? && (openStatus.OpenParseFailed? ==> observations == []))
  }

  predicate ValidLimitation(l: Limitation, visible: set<string>) {
    && l.code <= OUTSIDE_PLACE && l.owner == OwnerAt(l.code) && |l.tickers| <= 256
    && (forall t :: t in l.tickers ==> SourceText.IsTicker(t) && t in visible)
    && Universe.Distinct(l.tickers)
    && (l.code == OUTSIDE_PLACE <==> l.tickers != [])
  }

  predicate RanksIncrease(limitations: seq<Limitation>) {
    forall i, j :: 0 <= i < j < |limitations| ==> limitations[i].code < limitations[j].code
  }

  predicate ValidLimitations(limitations: seq<Limitation>, visible: set<string>) {
    && 1 <= |limitations| <= MAXIMUM_CONTRACT_LIMITATIONS
    && RanksIncrease(limitations)
    && forall i :: 0 <= i < |limitations| ==> ValidLimitation(limitations[i], visible)
  }

  predicate ValidView(v: View, padsYears: bool) {
    && ValidPolicyView(v.policy, padsYears) && ValidPortfolioView(v.portfolio, padsYears)
    && ValidLimitations(v.limitations, VisibleTickers(v.policy, v.portfolio))
  }

  // ----- the policy view derives -----

  function Tagged(tickers: seq<string>, role: Universe.Role): (r: seq<Instrument>)
    ensures |r| == |tickers| && forall i :: 0 <= i < |r| ==> r[i] == Instrument(tickers[i], role)
  {
    seq(|tickers|, i requires 0 <= i < |tickers| => Instrument(tickers[i], role))
  }

  predicate FreshFor(done: seq<Instrument>, tickers: seq<string>) {
    forall t :: t in tickers ==> !Named(done, t)
  }

  lemma NamedAfter(done: seq<Instrument>, x: Instrument, ticker: string)
    ensures Named(done + [x], ticker) <==> Named(done, ticker) || x.ticker == ticker
  {
    assert forall i :: 0 <= i < |done| ==> (done + [x])[i] == done[i];
    assert (done + [x])[|done|] == x;
  }

  lemma NamedTagged(done: seq<Instrument>, tickers: seq<string>, role: Universe.Role, ticker: string)
    ensures Named(done + Tagged(tickers, role), ticker) <==> Named(done, ticker) || ticker in tickers
  {
    var all, tagged := done + Tagged(tickers, role), Tagged(tickers, role);
    assert forall i :: 0 <= i < |done| ==> all[i] == done[i];
    assert forall i :: 0 <= i < |tagged| ==> all[|done| + i] == tagged[i];
  }

  lemma {:induction false} GroupAdded(tickers: seq<string>, role: Universe.Role, k: nat, done: seq<Instrument>)
    requires k <= |tickers| && Universe.Distinct(tickers) && forall i :: k <= i < |tickers| ==> !Named(done, tickers[i])
    ensures AddGroup(tickers, role, k, done) == Ok(done + Tagged(tickers, role)[k..])
    decreases |tickers| - k
  {
    if k == |tickers| {
      assert done + Tagged(tickers, role)[k..] == done;
    } else {
      var more := done + [Instrument(tickers[k], role)];
      forall i | k + 1 <= i < |tickers| ensures !Named(more, tickers[i]) {
        NamedAfter(done, Instrument(tickers[k], role), tickers[i]);
      }
      GroupAdded(tickers, role, k + 1, more);
      assert more + Tagged(tickers, role)[k + 1..] == done + Tagged(tickers, role)[k..];
    }
  }

  lemma GroupAddedWhole(tickers: seq<string>, role: Universe.Role, done: seq<Instrument>)
    requires Universe.Distinct(tickers) && FreshFor(done, tickers)
    ensures AddGroup(tickers, role, 0, done) == Ok(done + Tagged(tickers, role))
  {
    GroupAdded(tickers, role, 0, done);
    assert Tagged(tickers, role)[0..] == Tagged(tickers, role);
  }

  /** All three groups. */
  function AllTagged(u: Universe.UniverseProjection): seq<Instrument> {
    Tagged(u.core, Universe.Core) + Tagged(u.satellite, Universe.Satellite)
    + Tagged(u.approved, Universe.ApprovedExtended)
  }

  lemma DistinctParts(u: Universe.UniverseProjection)
    requires Universe.Partitioned(u)
    ensures Universe.Distinct(u.core) && Universe.Distinct(u.satellite) && Universe.Distinct(u.approved)
    ensures Universe.Disjoint(u.satellite, u.core) && Universe.Disjoint(u.approved, u.core)
    ensures Universe.Disjoint(u.approved, u.satellite)
  {
    var s := u.scope;
    assert forall i :: 0 <= i < |u.core| ==> u.core[i] == s[i];
    assert forall i :: 0 <= i < |u.satellite| ==> u.satellite[i] == s[|u.core| + i];
    assert forall i :: 0 <= i < |u.approved| ==> u.approved[i] == s[|u.core| + |u.satellite| + i];
  }

  lemma InstrumentsDerive(u: Universe.UniverseProjection)
    requires Universe.Partitioned(u)
    ensures InstrumentsOf(u) == Ok(AllTagged(u))
  {
    DistinctParts(u);
    GroupsAdded(u.core, u.satellite, u.approved);
  }

  lemma GroupsAdded(core: seq<string>, satellite: seq<string>, approved: seq<string>)
    requires Universe.Distinct(core) && Universe.Distinct(satellite) && Universe.Distinct(approved)
    requires Universe.Disjoint(satellite, core) && Universe.Disjoint(approved, core)
             && Universe.Disjoint(approved, satellite)
    ensures var a := Tagged(core, Universe.Core);
            var b := a + Tagged(satellite, Universe.Satellite);
            && AddGroup(core, Universe.Core, 0, []) == Ok(a)
            && AddGroup(satellite, Universe.Satellite, 0, a) == Ok(b)
            && AddGroup(approved, Universe.ApprovedExtended, 0, b)
               == Ok(b + Tagged(approved, Universe.ApprovedExtended))
  {
    var none: seq<Instrument> := [];
    var a := Tagged(core, Universe.Core);
    var b := a + Tagged(satellite, Universe.Satellite);
    assert none + a == a;
    forall t ensures Named(a, t) <==> t in core {
      NamedTagged(none, core, Universe.Core, t);
    }
    forall t ensures Named(b, t) <==> t in core || t in satellite {
      NamedTagged(a, satellite, Universe.Satellite, t);
    }
    GroupAddedWhole(core, Universe.Core, none);
    GroupAddedWhole(satellite, Universe.Satellite, a);
    GroupAddedWhole(approved, Universe.ApprovedExtended, b);
  }

  lemma TaggedTickers(u: Universe.UniverseProjection)
    requires u.scope == u.core + u.satellite + u.approved
    ensures |AllTagged(u)| == |u.scope| && forall i :: 0 <= i < |u.scope| ==> AllTagged(u)[i].ticker == u.scope[i]
    ensures forall i :: 0 <= i < |u.scope| ==>
              AllTagged(u)[i].role == if i < |u.core| then Universe.Core
                                      else if i < |u.core| + |u.satellite| then Universe.Satellite
                                      else Universe.ApprovedExtended
  {
  }

  lemma InstrumentsValid(u: Universe.UniverseProjection)
    requires Universe.Partitioned(u)
    ensures ValidInstruments(AllTagged(u))
    ensures forall t :: t in u.scope <==> Named(AllTagged(u), t)
    ensures exists i :: 0 <= i < |AllTagged(u)| && AllTagged(u)[i] == Instrument(u.benchmarks[0], Universe.Core)
  {
    TaggedTickers(u);
    var all, scope := AllTagged(u), u.scope;
    assert all[0].role == Universe.Core;
    assert all[|u.core|].role == Universe.Satellite;
    var b :| 0 <= b < |u.core| && u.core[b] == u.benchmarks[0];
    assert scope[b] == u.core[b];
    assert all[b] == Instrument(u.benchmarks[0], Universe.Core);
  }

  lemma PolicyViewDerives(p: Policy, padsYears: bool)
    requires Universe.Partitioned(p.universe) && IsDateText(p.asOf)
    ensures DerivePolicyView(p) == Ok(PolicyView(p.asOf, p.universe.benchmarks, AllTagged(p.universe)))
    ensures ValidPolicyView(DerivePolicyView(p).value, padsYears) <==> Reformats(p.asOf, padsYears)
  {
    InstrumentsDerive(p.universe);
    InstrumentsValid(p.universe);
    var benchmark := p.universe.benchmarks[0];
    assert [benchmark] == p.universe.benchmarks;
    assert benchmark in p.universe.scope;
  }

  // ----- the observations derive -----

  function ObservationsOf(records: seq<Record>): (r: seq<Observation>)
    ensures |r| == |records|
    ensures forall i :: 0 <= i < |r| ==> r[i] == Observation(records[i].ticker, records[i].classification)
  {
    seq(|records|, i requires 0 <= i < |records| => Observation(records[i].ticker, records[i].classification))
  }

  lemma {:induction false} UnseenClass(observations: seq<Observation>, ticker: string)
    requires forall i :: 0 <= i < |observations| ==> observations[i].ticker != ticker
    ensures ClassSeen(observations, ticker) == None
  {
    if observations != [] {
      UnseenClass(observations[1..], ticker);
    }
  }

  lemma {:induction false} OutsideGrows(records: seq<Record>, k: nat)
    requires k < |records|
    ensures OutsideTickers(records[..k + 1])
         == OutsideTickers(records[..k]) + if records[k].outside then [records[k].ticker] else []
    decreases k
  {
    if k == 0 {
      assert records[..1][1..] == [] && records[..1][0] == records[0] && records[..0] == [];
    } else {
      OutsideGrows(records[1..], k - 1);
      assert records[..k + 1][1..] == records[1..][..k] && records[..k][1..] == records[1..][..k - 1];
      assert records[..k + 1][0] == records[0] == records[..k][0];
    }
  }

  /** Whether a record is marked outside exactly when it is classified so. */
  predicate MarkedOutside(records: seq<Record>) {
    forall i :: 0 <= i < |records| ==> (records[i].outside <==> records[i].classification.OutsidePolicyUniverse?)
  }

  lemma {:induction false} ObservesAll(records: seq<Record>, k: nat)
    requires DistinctTickers(records) && MarkedOutside(records) && k <= |records|
    ensures ObserveFrom(records, k, Seen(ObservationsOf(records[..k]), OutsideTickers(records[..k])))
         == Ok(Seen(ObservationsOf(records), OutsideTickers(records)))
    decreases |records| - k
  {
    if k == |records| {
      assert records[..k] == records;
    } else {
      UnseenClass(ObservationsOf(records[..k]), records[k].ticker);
      OutsideGrows(records, k);
      assert ObservationsOf(records[..k + 1])
          == ObservationsOf(records[..k]) + [Observation(records[k].ticker, records[k].classification)];
      assert OutsideTickers(records[..k]) + [] == OutsideTickers(records[..k]);
      ObservesAll(records, k + 1);
    }
  }

  lemma ObservationsDerive(q: Portfolio, roles: Roles)
    requires ValidRecords(q.records, roles) && |q.records| <= MAXIMUM_OBSERVATIONS
    ensures DeriveObservations(q) == Ok(Seen(ObservationsOf(q.records), OutsideTickers(q.records)))
    ensures ValidObservations(ObservationsOf(q.records))
    ensures Universe.Distinct(OutsideTickers(q.records)) && |OutsideTickers(q.records)| <= |q.records|
    ensures forall t :: t in OutsideTickers(q.records) ==>
              SourceText.IsTicker(t) && exists i :: 0 <= i < |q.records| && ObservationsOf(q.records)[i].ticker == t
  {
    var records := q.records;
    assert records[..0] == [] && ObservationsOf([]) == [];
    ObservesAll(records, 0);
    OutsideDistinct(records);
  }

  lemma {:induction false} OutsideDistinct(records: seq<Record>)
    requires DistinctTickers(records)
    ensures Universe.Distinct(OutsideTickers(records)) && |OutsideTickers(records)| <= |records|
  {
    if records != [] {
      OutsideDistinct(records[1..]);
      var rest := OutsideTickers(records[1..]);
      forall t | t in rest ensures t != records[0].ticker {
        var x :| x in records[1..] && x.outside && x.ticker == t;
        var i :| 0 <= i < |records[1..]| && records[1..][i] == x;
        assert records[i + 1] == x;
      }
      PrependDistinct(records[0].ticker, rest);
      assert [] + rest == rest;
    }
  }

  lemma PrependDistinct(t: string, rest: seq<string>)
    requires Universe.Distinct(rest) && t !in rest
    ensures Universe.Distinct([t] + rest)
  {
  }
}
