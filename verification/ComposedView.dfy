/**
 The whole chain: policy and portfolio builders, then the view derivation, then the view
 contract as far as its parts go (that the whole prints within the contract's bound is in
 `ViewBound`). Nothing the builders produce is ever rejected on the way, but for one thing: dates
 and a timestamp in a year below 1000, where the platform's `strftime` does not pad the year.
 */
module ComposedView {
  import opened Outcomes
  import opened Dates
  import SourceText
  import opened GapCodes
  import Universe
  import opened OpenBuyTable
  import OpenBuyRows
  import Commitments
  import opened PolicyProjection
  import opened PortfolioProjection
  import opened AnalystView
  import opened ViewContract

  // ----- policy limitations -----

  /** The visible gaps, as limitations. */
  function Shown(gaps: seq<Universe.Gap>): seq<Limitation> {
    if gaps == [] then []
    else (if IsUniverseCode(gaps[0].code) then [] else [Limitation(PolicyOwner, Position(gaps[0].code) - 2, [])])
         + Shown(gaps[1..])
  }

  /** Every visible gap from k on comes after everything done. */
  predicate AllAfter(gaps: seq<Universe.Gap>, k: nat, done: seq<Limitation>) {
    forall i :: k <= i < |gaps| && !IsUniverseCode(gaps[i].code) ==> Follows(gaps[i], done)
  }

  predicate Follows(g: Universe.Gap, done: seq<Limitation>) {
    forall l :: 0 <= l < |done| ==> done[l].code + 2 < Position(g.code)
  }

  function PolicyShown(g: Universe.Gap): Limitation
    requires Position(g.code) >= 2
  {
    Limitation(PolicyOwner, Position(g.code) - 2, [])
  }

  lemma AfterOneMore(gaps: seq<Universe.Gap>, k: nat, done: seq<Limitation>)
    requires k < |gaps| && Universe.StrictGaps(gaps) && AllAfter(gaps, k, done) && Position(gaps[k].code) >= 2
    ensures AllAfter(gaps, k + 1, done + [PolicyShown(gaps[k])])
  {
    forall i | k + 1 <= i < |gaps| && !IsUniverseCode(gaps[i].code)
      ensures Follows(gaps[i], done + [PolicyShown(gaps[k])])
    {
      assert Follows(gaps[i], done);
    }
  }

  /** One visible gap is appended. */
  lemma PolicyStep(gaps: seq<Universe.Gap>, k: nat, done: seq<Limitation>)
    requires k < |gaps| && !IsUniverseCode(gaps[k].code) && gaps[k].tickers == [] && Follows(gaps[k], done)
    ensures Position(gaps[k].code) >= 2
    ensures PolicyLimitations(gaps, k, done) == PolicyLimitations(gaps, k + 1, done + [PolicyShown(gaps[k])])
  {
    assert !HasCode(done, Position(gaps[k].code) - 2);
  }

  lemma {:induction false} PolicyTranslates(gaps: seq<Universe.Gap>, k: nat, done: seq<Limitation>)
    requires k <= |gaps| && Universe.StrictGaps(gaps) && AllAfter(gaps, k, done)
    requires forall i :: k <= i < |gaps| && !IsUniverseCode(gaps[i].code) ==> gaps[i].tickers == []
    ensures PolicyLimitations(gaps, k, done) == Ok(done + Shown(gaps[k..]))
    decreases |gaps| - k
  {
    if k == |gaps| {
      assert done + Shown(gaps[k..]) == done;
    } else {
      assert gaps[k..][1..] == gaps[k + 1..];
      if IsUniverseCode(gaps[k].code) {
        PolicyTranslates(gaps, k + 1, done);
        assert [] + Shown(gaps[k + 1..]) == Shown(gaps[k + 1..]);
      } else {
        PolicyStep(gaps, k, done);
        AfterOneMore(gaps, k, done);
        var l := PolicyShown(gaps[k]);
        PolicyTranslates(gaps, k + 1, done + [l]);
        assert (done + [l]) + Shown(gaps[k + 1..]) == done + ([l] + Shown(gaps[k + 1..]));
      }
    }
  }

  predicate ShowsPolicy(g: Universe.Gap, l: Limitation) {
    !IsUniverseCode(g.code) && l == Limitation(PolicyOwner, Position(g.code) - 2, [])
  }

  lemma {:induction false} ShownFrom(gaps: seq<Universe.Gap>, l: Limitation)
    requires l in Shown(gaps)
    ensures exists i :: 0 <= i < |gaps| && ShowsPolicy(gaps[i], l)
  {
    if l in Shown(gaps[1..]) {
      ShownFrom(gaps[1..], l);
      var i :| 0 <= i < |gaps[1..]| && ShowsPolicy(gaps[1..][i], l);
      assert gaps[i + 1] == gaps[1..][i];
    } else {
      assert ShowsPolicy(gaps[0], l);
    }
  }

  lemma {:induction false} ShownRanks(gaps: seq<Universe.Gap>)
    requires Universe.StrictGaps(gaps)
    ensures RanksIncrease(Shown(gaps))
  {
    if gaps != [] {
      var rest := gaps[1..];
      ShownRanks(rest);
      if IsUniverseCode(gaps[0].code) {
        assert Shown(gaps) == Shown(rest);
      } else {
        forall l | l in Shown(rest) ensures Position(gaps[0].code) - 2 < l.code {
          ShownFrom(rest, l);
          var i :| 0 <= i < |rest| && ShowsPolicy(rest[i], l);
          assert gaps[i + 1] == rest[i];
        }
        PrependRank(Limitation(PolicyOwner, Position(gaps[0].code) - 2, []), Shown(rest));
      }
    }
  }

  lemma ShownShape(gaps: seq<Universe.Gap>)
    requires Universe.StrictGaps(gaps)
    ensures RanksIncrease(Shown(gaps))
    ensures forall l :: l in Shown(gaps) ==> l.owner == PolicyOwner && l.code < EVIDENCE_PLACE && l.tickers == []
  {
    ShownRanks(gaps);
    forall l | l in Shown(gaps) ensures l.owner == PolicyOwner && l.code < EVIDENCE_PLACE && l.tickers == [] {
      ShownFrom(gaps, l);
    }
  }

  lemma PrependRank(l: Limitation, rest: seq<Limitation>)
    requires RanksIncrease(rest) && forall x :: x in rest ==> l.code < x.code
    ensures RanksIncrease([l] + rest)
  {
  }

  // ----- how many there are -----

  lemma {:induction false} ShownInsert(g: Universe.Gap, gaps: seq<Universe.Gap>)
    ensures |Shown(Universe.InsertGap(g, gaps))| == |Shown(gaps)| + if IsUniverseCode(g.code) then 0 else 1
  {
    if gaps != [] && Position(gaps[0].code) <= Position(g.code) {
      ShownInsert(g, gaps[1..]);
      assert ([gaps[0]] + Universe.InsertGap(g, gaps[1..]))[1..] == Universe.InsertGap(g, gaps[1..]);
    } else {
      assert ([g] + gaps)[1..] == gaps;
    }
  }

  lemma {:induction false} ShownAppend(a: seq<Universe.Gap>, b: seq<Universe.Gap>)
    ensures |Shown(a + b)| == |Shown(a)| + |Shown(b)|
  {
    if a == [] {
      assert a + b == b;
    } else {
      assert (a + b)[1..] == a[1..] + b;
      ShownAppend(a[1..], b);
    }
  }

  lemma {:induction false} ShownSort(gaps: seq<Universe.Gap>)
    ensures |Shown(Universe.SortGaps(gaps))| == |Shown(gaps)|
  {
    if gaps != [] {
      var front, last := gaps[..|gaps| - 1], gaps[|gaps| - 1];
      ShownSort(front);
      ShownInsert(last, Universe.SortGaps(front));
      ShownAppend(front, [last]);
      assert gaps == front + [last];
      assert [last][1..] == [];
    }
  }

  lemma {:induction false} ShownCount(gaps: seq<Universe.Gap>)
    ensures (forall g :: g in gaps ==> IsUniverseCode(g.code)) ==> Shown(gaps) == []
    ensures (forall g :: g in gaps ==> !IsUniverseCode(g.code)) ==> |Shown(gaps)| == |gaps|
  {
    if gaps != [] {
      ShownCount(gaps[1..]);
      assert gaps[0] in gaps;
    }
  }

  function ConditionalCount(p: Policy): nat {
    (if p.maxNew.status.Unavailable? then 1 else 0) + (if p.constraints.status.Unavailable? then 1 else 0)
  }

  predicate SoundGaps(p: Policy) {
    p.gaps == ExpectedPolicyGaps(p) && p.universe.gaps == Universe.ExpectedUniverseGaps(p.universe)
  }

  /** A policy shows eight limitations, and one more for either optional rule it lacks. */
  lemma PolicyLimitationsDerive(p: Policy)
    requires SoundGaps(p)
    ensures PolicyLimitations(p.gaps, 0, []) == Ok(Shown(p.gaps))
    ensures RanksIncrease(Shown(p.gaps)) && |Shown(p.gaps)| == 8 + ConditionalCount(p)
    ensures forall l :: l in Shown(p.gaps) ==> l.owner == PolicyOwner && l.code < EVIDENCE_PLACE && l.tickers == []
  {
    PolicyGapsExactly(p);
    OwnGapsShape(p);
    UniverseGapsShape(p.universe);
    PolicyTranslates(p.gaps, 0, []);
    assert p.gaps[0..] == p.gaps && [] + Shown(p.gaps) == Shown(p.gaps);
    ShownShape(p.gaps);
    ShownSort(p.universe.gaps + OwnGaps(p));
    ShownAppend(p.universe.gaps, OwnGaps(p));
    ShownCount(p.universe.gaps);
    ShownCount(OwnGaps(p));
  }

  // ----- portfolio limitations -----

  function OrderOf(c: PortfolioGapCode): (i: nat)
    ensures i < 11
  {
    match c
    case SourceMissing => 0
    case SourceTimestampUnavailable => 1
    case OpenBuyOrdersParseFailed => 3
    case OpenBuyOrderOutsidePolicyUniverse => 4
    case Uncovered(area) =>
      match area
      case Holdings => 2
      case OpenSellOrders => 5
      case TaxLots => 6
      case DeployableCash => 7
      case Weights => 8
      case NavConcentration => 9
      case LookthroughExposure => 10
  }

  predicate InOrder(codes: seq<PortfolioGapCode>, order: PortfolioGapCode -> nat) {
    forall i, j :: 0 <= i < j < |codes| ==> order(codes[i]) < order(codes[j])
  }

  predicate GapsInOrder(gaps: seq<PortfolioGap>, order: PortfolioGapCode -> nat) {
    forall i, j :: 0 <= i < j < |gaps| ==> order(gaps[i].code) < order(gaps[j].code)
  }

  lemma {:induction false} GapsOfMembers(codes: seq<PortfolioGapCode>, active: map<PortfolioGapCode, seq<string>>,
                                         policyIdentity: string, sourceIdentity: Option<string>)
    ensures forall g :: g in GapsOf(codes, active, policyIdentity, sourceIdentity) <==>
              g.code in codes && g.code in active
              && g == PortfolioGap(g.code, active[g.code], policyIdentity, sourceIdentity)
  {
    if codes != [] {
      GapsOfMembers(codes[1..], active, policyIdentity, sourceIdentity);
      assert forall c :: c in codes <==> c == codes[0] || c in codes[1..];
    }
  }

  lemma {:induction false} GapsOfInOrder(codes: seq<PortfolioGapCode>, active: map<PortfolioGapCode, seq<string>>,
                                         policyIdentity: string, sourceIdentity: Option<string>,
                                         order: PortfolioGapCode -> nat)
    requires InOrder(codes, order)
    ensures GapsInOrder(GapsOf(codes, active, policyIdentity, sourceIdentity), order)
  {
    if codes != [] {
      var rest := GapsOf(codes[1..], active, policyIdentity, sourceIdentity);
      GapsOfInOrder(codes[1..], active, policyIdentity, sourceIdentity, order);
      GapsOfMembers(codes[1..], active, policyIdentity, sourceIdentity);
      forall g | g in rest ensures order(codes[0]) < order(g.code) {
        var i :| 0 <= i < |codes[1..]| && codes[1..][i] == g.code;
        assert codes[i + 1] == g.code;
      }
      if codes[0] in active {
        PrependGap(PortfolioGap(codes[0], active[codes[0]], policyIdentity, sourceIdentity), rest, order);
      } else {
        assert GapsOf(codes, active, policyIdentity, sourceIdentity) == rest;
      }
    }
  }

  lemma PrependGap(g: PortfolioGap, rest: seq<PortfolioGap>, order: PortfolioGapCode -> nat)
    requires GapsInOrder(rest, order) && forall x :: x in rest ==> order(g.code) < order(x.code)
    ensures GapsInOrder([g] + rest, order)
  {
  }

  lemma OrderListed()
    ensures InOrder(GAP_CODE_ORDER, OrderOf) && forall c :: c in GAP_CODE_ORDER
  {
    forall c ensures c in GAP_CODE_ORDER {
      assert GAP_CODE_ORDER[OrderOf(c)] == c;
    }
  }

  predicate HasGap(gaps: seq<PortfolioGap>, c: PortfolioGapCode) {
    exists g :: g in gaps && g.code == c
  }

  /** Which gaps a portfolio has, and which tickers they affect. */
  predicate ExactGaps(q: Portfolio, gaps: seq<PortfolioGap>) {
    && GapsInOrder(gaps, OrderOf)
    && (forall g :: g in gaps ==>
          g.tickers == if g.code.OpenBuyOrderOutsidePolicyUniverse? then OutsideTickers(q.records) else [])
    && (HasGap(gaps, SourceMissing) <==> !q.sourcePresent)
    && (HasGap(gaps, SourceTimestampUnavailable) <==> q.sourcePresent && q.sourceDate.None?)
    && (HasGap(gaps, PortfolioGapCode.OpenBuyOrdersParseFailed) <==> q.openStatus.OpenParseFailed?)
    && (HasGap(gaps, OpenBuyOrderOutsidePolicyUniverse) <==> OutsideTickers(q.records) != [])
  }

  lemma GapListed(codes: seq<PortfolioGapCode>, active: map<PortfolioGapCode, seq<string>>, policyIdentity: string,
                  sourceIdentity: Option<string>, c: PortfolioGapCode)
    requires c in codes
    ensures HasGap(GapsOf(codes, active, policyIdentity, sourceIdentity), c) <==> c in active
  {
    GapsOfMembers(codes, active, policyIdentity, sourceIdentity);
    if c in active {
      assert PortfolioGap(c, active[c], policyIdentity, sourceIdentity)
             in GapsOf(codes, active, policyIdentity, sourceIdentity);
    }
  }

  /** The gap list is in its fixed order, and holds each code exactly when its condition does. */
  lemma PortfolioGapsExactly(q: Portfolio)
    ensures ExactGaps(q, ExpectedGaps(q))
  {
    OrderListed();
    ListedExactly(q, GAP_CODE_ORDER, ActiveCodes(q));
  }

  lemma ListedExactly(q: Portfolio, codes: seq<PortfolioGapCode>, active: map<PortfolioGapCode, seq<string>>)
    requires InOrder(codes, OrderOf) && (forall c :: c in codes) && active == ActiveCodes(q)
    ensures ExactGaps(q, GapsOf(codes, active, q.policyIdentity, q.sourceIdentity))
  {
    GapsOfInOrder(codes, active, q.policyIdentity, q.sourceIdentity, OrderOf);
    GapsOfMembers(codes, active, q.policyIdentity, q.sourceIdentity);
    ActiveExactly(q, active);
    GapListed(codes, active, q.policyIdentity, q.sourceIdentity, SourceMissing);
    GapListed(codes, active, q.policyIdentity, q.sourceIdentity, SourceTimestampUnavailable);
    GapListed(codes, active, q.policyIdentity, q.sourceIdentity, PortfolioGapCode.OpenBuyOrdersParseFailed);
    GapListed(codes, active, q.policyIdentity, q.sourceIdentity, OpenBuyOrderOutsidePolicyUniverse);
  }

  lemma ActiveExactly(q: Portfolio, active: map<PortfolioGapCode, seq<string>>)
    requires active == ActiveCodes(q)
    ensures SourceMissing in active <==> !q.sourcePresent
    ensures SourceTimestampUnavailable in active <==> q.sourcePresent && q.sourceDate.None?
    ensures PortfolioGapCode.OpenBuyOrdersParseFailed in active <==> q.openStatus.OpenParseFailed?
    ensures OpenBuyOrderOutsidePolicyUniverse in active <==> OutsideTickers(q.records) != []
    ensures forall c :: c in active ==>
              active[c] == if c.OpenBuyOrderOutsidePolicyUniverse? then OutsideTickers(q.records) else []
  {
  }

  type PlaceOf = PortfolioGapCode -> Option<nat>

  function PortfolioPlace(c: PortfolioGapCode): Option<nat> {
    Place(FromPortfolio(c))
  }

  /** The visible portfolio gaps, as limitations. */
  function ShownPortfolio(gaps: seq<PortfolioGap>, place: PlaceOf): seq<Limitation> {
    if gaps == [] then []
    else (if place(gaps[0].code).None? then []
          else [Limitation(PortfolioOwner, place(gaps[0].code).value, gaps[0].tickers)])
         + ShownPortfolio(gaps[1..], place)
  }

  predicate TickersFit(gaps: seq<PortfolioGap>, outside: seq<string>) {
    forall i :: 0 <= i < |gaps| ==>
      if gaps[i].code.OpenBuyOrderOutsidePolicyUniverse? then gaps[i].tickers == outside && outside != []
      else gaps[i].tickers == []
  }

  predicate PlacesIncrease(gaps: seq<PortfolioGap>, place: PlaceOf) {
    forall i, j :: 0 <= i < j < |gaps| && place(gaps[i].code).Some? && place(gaps[j].code).Some? ==>
      place(gaps[i].code).value < place(gaps[j].code).value
  }

  predicate AllBefore(done: seq<Limitation>, gaps: seq<PortfolioGap>, k: nat, place: PlaceOf) {
    forall l, i :: 0 <= l < |done| && k <= i < |gaps| && place(gaps[i].code).Some? ==>
      done[l].code < place(gaps[i].code).value
  }

  function Extended(done: seq<Limitation>, gap: PortfolioGap, place: PlaceOf): seq<Limitation> {
    if place(gap.code).None? then done else done + [Limitation(PortfolioOwner, place(gap.code).value, gap.tickers)]
  }

  lemma PortfolioStep(gaps: seq<PortfolioGap>, outside: seq<string>, k: nat, done: seq<Limitation>)
    requires k < |gaps| && TickersFit(gaps, outside) && AllBefore(done, gaps, k, PortfolioPlace)
    ensures PortfolioLimitations(gaps, outside, k, done)
         == PortfolioLimitations(gaps, outside, k + 1, Extended(done, gaps[k], PortfolioPlace))
  {
    var place := PortfolioPlace(gaps[k].code);
    assert place.Some? ==> !HasCode(done, place.value);
  }

  /** While every place comes in order, each gap is translated and appended. */
  ghost predicate Steps(gaps: seq<PortfolioGap>, outside: seq<string>, place: PlaceOf) {
    forall k, done :: 0 <= k < |gaps| && AllBefore(done, gaps, k, place) ==>
      PortfolioLimitations(gaps, outside, k, done)
        == PortfolioLimitations(gaps, outside, k + 1, Extended(done, gaps[k], place))
  }

  lemma {:induction false} StepsTranslate(gaps: seq<PortfolioGap>, outside: seq<string>, k: nat, done: seq<Limitation>,
                                          place: PlaceOf)
    requires Steps(gaps, outside, place)
    requires k <= |gaps| && PlacesIncrease(gaps, place) && AllBefore(done, gaps, k, place)
    ensures PortfolioLimitations(gaps, outside, k, done) == Ok(done + ShownPortfolio(gaps[k..], place))
    decreases |gaps| - k
  {
    if k == |gaps| {
      assert done + ShownPortfolio(gaps[k..], place) == done;
    } else {
      assert gaps[k..][1..] == gaps[k + 1..];
      StepsTranslate(gaps, outside, k + 1, Extended(done, gaps[k], place), place);
      if place(gaps[k].code).None? {
        assert [] + ShownPortfolio(gaps[k + 1..], place) == ShownPortfolio(gaps[k + 1..], place);
      } else {
        var l := Limitation(PortfolioOwner, place(gaps[k].code).value, gaps[k].tickers);
        assert (done + [l]) + ShownPortfolio(gaps[k + 1..], place)
               == done + ([l] + ShownPortfolio(gaps[k + 1..], place));
      }
    }
  }

  lemma PortfolioTranslates(gaps: seq<PortfolioGap>, outside: seq<string>, done: seq<Limitation>)
    requires PlacesIncrease(gaps, PortfolioPlace) && TickersFit(gaps, outside)
             && AllBefore(done, gaps, 0, PortfolioPlace)
    ensures PortfolioLimitations(gaps, outside, 0, done) == Ok(done + ShownPortfolio(gaps, PortfolioPlace))
  {
    assert Steps(gaps, outside, PortfolioPlace) by {
      forall k, d | 0 <= k < |gaps| && AllBefore(d, gaps, k, PortfolioPlace)
        ensures PortfolioLimitations(gaps, outside, k, d)
             == PortfolioLimitations(gaps, outside, k + 1, Extended(d, gaps[k], PortfolioPlace))
      {
        PortfolioStep(gaps, outside, k, d);
      }
    }
    StepsTranslate(gaps, outside, 0, done, PortfolioPlace);
    assert gaps[0..] == gaps;
  }

  /** l is the limitation that g shows as. */
  predicate ShowsAs(g: PortfolioGap, l: Limitation, place: PlaceOf) {
    l.owner == PortfolioOwner && l.tickers == g.tickers && place(g.code) == Some(l.code)
  }

  lemma {:induction false} ShownPortfolioMembers(gaps: seq<PortfolioGap>, place: PlaceOf)
    ensures forall l :: l in ShownPortfolio(gaps, place) <==> exists g :: g in gaps && ShowsAs(g, l, place)
  {
    if gaps != [] {
      var rest := gaps[1..];
      ShownPortfolioMembers(rest, place);
      forall l ensures l in ShownPortfolio(gaps, place) <==> exists g :: g in gaps && ShowsAs(g, l, place) {
        if l in ShownPortfolio(gaps, place) {
          if l in ShownPortfolio(rest, place) {
            var g :| g in rest && ShowsAs(g, l, place);
            assert g in gaps;
          } else {
            assert ShowsAs(gaps[0], l, place);
          }
        }
        if g :| g in gaps && ShowsAs(g, l, place) {
          assert g == gaps[0] || g in rest;
        }
      }
    }
  }

  lemma {:induction false} ShownPortfolioRanks(gaps: seq<PortfolioGap>, place: PlaceOf)
    requires PlacesIncrease(gaps, place)
    ensures RanksIncrease(ShownPortfolio(gaps, place))
  {
    if gaps != [] {
      var rest := gaps[1..];
      ShownPortfolioRanks(rest, place);
      ShownPortfolioMembers(rest, place);
      var tail := ShownPortfolio(rest, place);
      if place(gaps[0].code).Some? {
        forall l | l in tail ensures place(gaps[0].code).value < l.code {
          var g :| g in rest && ShowsAs(g, l, place);
          var i :| 0 <= i < |rest| && rest[i] == g;
          assert gaps[i + 1] == g;
        }
        PrependRank(Limitation(PortfolioOwner, place(gaps[0].code).value, gaps[0].tickers), tail);
      } else {
        assert ShownPortfolio(gaps, place) == tail;
      }
    }
  }

  lemma PlaceMonotone(c: PortfolioGapCode, d: PortfolioGapCode)
    requires OrderOf(c) < OrderOf(d) && PortfolioPlace(c).Some? && PortfolioPlace(d).Some?
    ensures PortfolioPlace(c).value < PortfolioPlace(d).value
  {
  }

  lemma PlacesFromOrder(gaps: seq<PortfolioGap>)
    requires GapsInOrder(gaps, OrderOf)
    ensures PlacesIncrease(gaps, PortfolioPlace)
  {
    forall i, j | 0 <= i < j < |gaps| && PortfolioPlace(gaps[i].code).Some? && PortfolioPlace(gaps[j].code).Some?
      ensures PortfolioPlace(gaps[i].code).value < PortfolioPlace(gaps[j].code).value
    {
      PlaceMonotone(gaps[i].code, gaps[j].code);
    }
  }

  /** The limitations a portfolio shows, and when. */
  predicate ExactLimitations(q: Portfolio, shown: seq<Limitation>) {
    && RanksIncrease(shown)
    && (forall l :: l in shown ==>
          && l.owner == PortfolioOwner && EVIDENCE_PLACE < l.code <= OUTSIDE_PLACE
          && l.tickers == if l.code == OUTSIDE_PLACE then OutsideTickers(q.records) else [])
    && (HasCode(shown, 12) <==> !q.sourcePresent)
    && (HasCode(shown, 13) <==> q.sourcePresent && q.sourceDate.None?)
    && (HasCode(shown, 14) <==> q.openStatus.OpenParseFailed?)
    && (HasCode(shown, OUTSIDE_PLACE) <==> OutsideTickers(q.records) != [])
  }

  lemma CodeShown(gaps: seq<PortfolioGap>, c: PortfolioGapCode)
    requires PortfolioPlace(c).Some?
    ensures HasCode(ShownPortfolio(gaps, PortfolioPlace), PortfolioPlace(c).value) <==> HasGap(gaps, c)
  {
    var shown := ShownPortfolio(gaps, PortfolioPlace);
    ShownPortfolioMembers(gaps, PortfolioPlace);
    if HasCode(shown, PortfolioPlace(c).value) {
      var i :| 0 <= i < |shown| && shown[i].code == PortfolioPlace(c).value;
      assert shown[i] in shown;
      var g :| g in gaps && ShowsAs(g, shown[i], PortfolioPlace);
      SamePlace(g.code, c);
    }
    if HasGap(gaps, c) {
      var g :| g in gaps && g.code == c;
      var l := Limitation(PortfolioOwner, PortfolioPlace(c).value, g.tickers);
      assert ShowsAs(g, l, PortfolioPlace);
      assert l in shown;
      var i :| 0 <= i < |shown| && shown[i] == l;
    }
  }

  lemma SamePlace(c: PortfolioGapCode, d: PortfolioGapCode)
    requires PortfolioPlace(c).Some? && PortfolioPlace(c) == PortfolioPlace(d)
    ensures c == d
  {
  }

  /** Whatever is shown is the portfolio's, and only the last place has tickers. */
  lemma ShownOwned(q: Portfolio, gaps: seq<PortfolioGap>, l: Limitation)
    requires ExactGaps(q, gaps) && l in ShownPortfolio(gaps, PortfolioPlace)
    ensures l.owner == PortfolioOwner && EVIDENCE_PLACE < l.code <= OUTSIDE_PLACE
    ensures l.tickers == if l.code == OUTSIDE_PLACE then OutsideTickers(q.records) else []
  {
    ShownPortfolioMembers(gaps, PortfolioPlace);
    var g :| g in gaps && ShowsAs(g, l, PortfolioPlace);
  }

  lemma ShownExactly(q: Portfolio, gaps: seq<PortfolioGap>)
    requires ExactGaps(q, gaps)
    ensures ExactLimitations(q, ShownPortfolio(gaps, PortfolioPlace))
  {
    PlacesFromOrder(gaps);
    ShownPortfolioRanks(gaps, PortfolioPlace);
    CodeShown(gaps, SourceMissing);
    CodeShown(gaps, SourceTimestampUnavailable);
    CodeShown(gaps, PortfolioGapCode.OpenBuyOrdersParseFailed);
    CodeShown(gaps, OpenBuyOrderOutsidePolicyUniverse);
    forall l | l in ShownPortfolio(gaps, PortfolioPlace)
      ensures l.owner == PortfolioOwner && EVIDENCE_PLACE < l.code <= OUTSIDE_PLACE
      ensures l.tickers == if l.code == OUTSIDE_PLACE then OutsideTickers(q.records) else []
    {
      ShownOwned(q, gaps, l);
    }
  }

  lemma PortfolioLimitationsDerive(q: Portfolio, done: seq<Limitation>)
    requires q.gaps == ExpectedGaps(q) && forall l :: l in done ==> l.code <= EVIDENCE_PLACE
    ensures PortfolioLimitations(q.gaps, OutsideTickers(q.records), 0, done)
         == Ok(done + ShownPortfolio(q.gaps, PortfolioPlace))
    ensures ExactLimitations(q, ShownPortfolio(q.gaps, PortfolioPlace))
  {
    PortfolioGapsExactly(q);
    PlacesFromOrder(q.gaps);
    FitsAndFollows(q, done);
    PortfolioTranslates(q.gaps, OutsideTickers(q.records), done);
    ShownExactly(q, q.gaps);
  }

  lemma FitsAndFollows(q: Portfolio, done: seq<Limitation>)
    requires ExactGaps(q, q.gaps) && forall l :: l in done ==> l.code <= EVIDENCE_PLACE
    ensures TickersFit(q.gaps, OutsideTickers(q.records)) && AllBefore(done, q.gaps, 0, PortfolioPlace)
  {
    forall i | 0 <= i < |q.gaps| && q.gaps[i].code.OpenBuyOrderOutsidePolicyUniverse?
      ensures OutsideTickers(q.records) != []
    {
      assert q.gaps[i] in q.gaps && HasGap(q.gaps, OpenBuyOrderOutsidePolicyUniverse);
    }
    forall i | 0 <= i < |q.gaps|
      ensures q.gaps[i].tickers == if q.gaps[i].code.OpenBuyOrderOutsidePolicyUniverse? then OutsideTickers(q.records)
                                   else []
    {
      assert q.gaps[i] in q.gaps;
    }
    assert forall l :: 0 <= l < |done| ==> done[l] in done;
  }

  /** How many of the places from c on are shown. */
  function PlacesFrom(shown: seq<Limitation>, c: nat): nat
    decreases OUTSIDE_PLACE + 1 - c
  {
    if c > OUTSIDE_PLACE then 0 else (if HasCode(shown, c) then 1 else 0) + PlacesFrom(shown, c + 1)
  }

  lemma {:induction false} SamePlaces(first: Limitation, rest: seq<Limitation>, c: nat)
    requires first.code < c
    ensures PlacesFrom([first] + rest, c) == PlacesFrom(rest, c)
    decreases OUTSIDE_PLACE + 1 - c
  {
    if c <= OUTSIDE_PLACE {
      var all := [first] + rest;
      assert forall i :: 0 <= i < |rest| ==> all[i + 1] == rest[i];
      SamePlaces(first, rest, c + 1);
    }
  }

  /** Limitations in increasing order are as many as their places. */
  lemma {:induction false} CountPlaces(shown: seq<Limitation>, c: nat)
    requires RanksIncrease(shown) && c <= OUTSIDE_PLACE + 1
    requires forall i :: 0 <= i < |shown| ==> c <= shown[i].code <= OUTSIDE_PLACE
    ensures |shown| == PlacesFrom(shown, c)
    decreases OUTSIDE_PLACE + 1 - c
  {
    if c <= OUTSIDE_PLACE {
      if HasCode(shown, c) {
        var first, rest := shown[0], shown[1..];
        assert first.code == c;
        CountPlaces(rest, c + 1);
        SamePlaces(first, rest, c + 1);
        assert shown == [first] + rest;
      } else {
        assert forall i :: 0 <= i < |shown| ==> HasCode(shown, shown[i].code);
        CountPlaces(shown, c + 1);
      }
    }
  }

  lemma AtMostTwo(q: Portfolio, shown: seq<Limitation>)
    requires ExactLimitations(q, shown) && (q.openStatus.OpenParseFailed? ==> OutsideTickers(q.records) == [])
    ensures |shown| == PortfolioCount(q) <= 2
  {
    assert forall i :: 0 <= i < |shown| ==> shown[i] in shown;
    CountPlaces(shown, 12);
    assert PlacesFrom(shown, 14) == (if HasCode(shown, 14) then 1 else 0) + (if HasCode(shown, 15) then 1 else 0);
    assert PlacesFrom(shown, 12)
        == (if HasCode(shown, 12) then 1 else 0) + (if HasCode(shown, 13) then 1 else 0) + PlacesFrom(shown, 14);
  }

  predicate SourceLimited(q: Portfolio) {
    !q.sourcePresent || q.sourceDate.None?
  }

  predicate OrdersLimited(q: Portfolio) {
    q.openStatus.OpenParseFailed? || OutsideTickers(q.records) != []
  }

  function PortfolioCount(q: Portfolio): nat {
    (if SourceLimited(q) then 1 else 0) + if OrdersLimited(q) then 1 else 0
  }

  // ----- all limitations -----

  /** The presence the evidence bundle records. */
  function PresenceOf(portfolio: Option<Portfolio>): Presence {
    match portfolio
    case None => NotSupplied
    case Some(q) => if q.sourcePresent then SourceBound else SourceAbsent
  }

  function LimitationCount(p: Policy, portfolio: Option<Portfolio>): nat {
    8 + ConditionalCount(p) + match portfolio case None => 1 case Some(q) => PortfolioCount(q)
  }

  /** What the contract asks of the limitations, over the outside tickers the observations show. */
  predicate GoodLimitations(limitations: seq<Limitation>, outside: seq<string>) {
    && RanksIncrease(limitations)
    && forall l :: l in limitations ==>
         && l.code <= OUTSIDE_PLACE && l.owner == OwnerAt(l.code)
         && l.tickers == (if l.code == OUTSIDE_PLACE then outside else [])
         && (l.code == OUTSIDE_PLACE ==> outside != [])
  }

  lemma ConcatRanks(a: seq<Limitation>, b: seq<Limitation>)
    requires RanksIncrease(a) && RanksIncrease(b)
    requires forall x, y :: x in a && y in b ==> x.code < y.code
    ensures RanksIncrease(a + b)
  {
    var c := a + b;
    forall i, j | 0 <= i < j < |c| ensures c[i].code < c[j].code {
      if i < |a| <= j {
        assert a[i] in a && b[j - |a|] in b;
      }
    }
  }

  ghost predicate SoundParts(p: Policy, portfolio: Option<Portfolio>) {
    && SoundGaps(p) && Universe.Partitioned(p.universe) && IsDateText(p.asOf)
    && (portfolio.Some? ==> ValidSource(portfolio.value) && ValidOpenBuy(portfolio.value, p.universe.roles)
                            && portfolio.value.gaps == ExpectedGaps(portfolio.value)
                            && |portfolio.value.records| <= MAXIMUM_OBSERVATIONS)
  }

  function OutsideOf(portfolio: Option<Portfolio>): seq<string> {
    match portfolio case None => [] case Some(q) => OutsideTickers(q.records)
  }

  lemma NoPortfolioLimitations(p: Policy)
    requires SoundGaps(p)
    ensures var r := TranslateLimitations(p, NotSupplied, None, []);
            r.Ok? && |r.value| == LimitationCount(p, None) && GoodLimitations(r.value, [])
  {
    PolicyLimitationsDerive(p);
    var shown, evidence := Shown(p.gaps), Limitation(EvidenceOwner, EVIDENCE_PLACE, []);
    assert !HasCode(shown, EVIDENCE_PLACE) by {
      assert forall i :: 0 <= i < |shown| ==> shown[i] in shown;
    }
    assert Append(shown, FromEvidence, []) == Ok(shown + [evidence]);
    ConcatRanks(shown, [evidence]);
  }

  lemma WithPortfolioLimitations(p: Policy, q: Portfolio)
    requires SoundGaps(p) && q.gaps == ExpectedGaps(q)
    requires q.openStatus.OpenParseFailed? ==> OutsideTickers(q.records) == []
    ensures var r := TranslateLimitations(p, PresenceOf(Some(q)), Some(q), OutsideTickers(q.records));
            r.Ok? && |r.value| == LimitationCount(p, Some(q)) && GoodLimitations(r.value, OutsideTickers(q.records))
  {
    PolicyLimitationsDerive(p);
    var policy: seq<Limitation>, portfolio: seq<Limitation> := Shown(p.gaps), ShownPortfolio(q.gaps, PortfolioPlace);
    PortfolioLimitationsDerive(q, policy);
    AtMostTwo(q, portfolio);
    GoodConcat(policy, portfolio, q);
    TranslatesTo(p, q, policy, policy + portfolio);
  }

  lemma TranslatesTo(p: Policy, q: Portfolio, policy: seq<Limitation>, all: seq<Limitation>)
    requires PolicyLimitations(p.gaps, 0, []) == Ok(policy)
    requires PortfolioLimitations(q.gaps, OutsideTickers(q.records), 0, policy) == Ok(all)
    requires 0 < |all| <= MAXIMUM_SOURCE_BOUND_LIMITATIONS
    ensures TranslateLimitations(p, PresenceOf(Some(q)), Some(q), OutsideTickers(q.records)) == Ok(all)
  {
  }

  lemma GoodConcat(policy: seq<Limitation>, portfolio: seq<Limitation>, q: Portfolio)
    requires RanksIncrease(policy) && ExactLimitations(q, portfolio)
    requires forall l :: l in policy ==> l.owner == PolicyOwner && l.code < EVIDENCE_PLACE && l.tickers == []
    ensures GoodLimitations(policy + portfolio, OutsideTickers(q.records))
  {
    ConcatRanks(policy, portfolio);
    forall l | l in portfolio && l.code == OUTSIDE_PLACE ensures OutsideTickers(q.records) != [] {
      var i :| 0 <= i < |portfolio| && portfolio[i] == l;
      assert HasCode(portfolio, OUTSIDE_PLACE);
    }
  }

  lemma LimitationsDerive(p: Policy, portfolio: Option<Portfolio>)
    requires SoundParts(p, portfolio)
    ensures var r := TranslateLimitations(p, PresenceOf(portfolio), portfolio, OutsideOf(portfolio));
            r.Ok? && |r.value| == LimitationCount(p, portfolio) && GoodLimitations(r.value, OutsideOf(portfolio))
  {
    match portfolio {
      case None => NoPortfolioLimitations(p);
      case Some(q) => WithPortfolioLimitations(p, q);
    }
  }

  // ----- the portfolio view -----

  predicate PortfolioDatesReformat(portfolio: Option<Portfolio>, padsYears: bool) {
    portfolio.Some? && portfolio.value.sourceDate.Some? && IsDateText(portfolio.value.sourceDate.value) ==>
      Reformats(portfolio.value.sourceDate.value, padsYears)
  }

  lemma AbsentRecords(q: Portfolio, roles: Roles)
    requires ValidSource(q) && ValidOpenBuy(q, roles)
    ensures !q.sourcePresent ==> q.openStatus.OpenSourceAbsent? && q.sourceDate == None
    ensures q.openStatus.OpenSourceAbsent? ==> !q.sourcePresent
    ensures !q.openStatus.OpenSourceValidated? ==> q.records == [] && OutsideTickers(q.records) == []
    ensures q.openStatus.OpenSourceValidated? ==> ValidRecords(q.records, roles)
  {
  }

  lemma AnyRecordsValid(q: Portfolio, roles: Roles)
    requires ValidSource(q) && ValidOpenBuy(q, roles)
    ensures ValidRecords(q.records, roles)
  {
    AbsentRecords(q, roles);
  }

  lemma AbsentViewDerives(q: Portfolio, roles: Roles, padsYears: bool)
    requires ValidSource(q) && ValidOpenBuy(q, roles) && !q.sourcePresent
    ensures DerivePortfolioView(PresenceOf(Some(q)), Some(q))
         == Ok(DerivedPortfolio(PresentView(SourceAbsent, None, OpenSourceAbsent, []), []))
    ensures q.records == [] && ValidPortfolioView(PresentView(SourceAbsent, None, OpenSourceAbsent, []), padsYears)
  {
    AbsentRecords(q, roles);
  }

  lemma BoundViewDerives(q: Portfolio, roles: Roles)
    requires ValidSource(q) && ValidOpenBuy(q, roles) && q.sourcePresent && |q.records| <= MAXIMUM_OBSERVATIONS
    ensures DerivePortfolioView(PresenceOf(Some(q)), Some(q))
         == Ok(DerivedPortfolio(PresentView(SourceBound, q.sourceDate, q.openStatus, ObservationsOf(q.records)),
                                OutsideTickers(q.records)))
  {
    AbsentRecords(q, roles);
    AnyRecordsValid(q, roles);
    ObservationsDerive(q, roles);
  }

  lemma PortfolioViewDerives(q: Portfolio, roles: Roles, padsYears: bool)
    requires ValidSource(q) && ValidOpenBuy(q, roles) && |q.records| <= MAXIMUM_OBSERVATIONS
    ensures var r := DerivePortfolioView(PresenceOf(Some(q)), Some(q));
            && r.Ok? && r.value.outside == OutsideTickers(q.records)
            && (ValidPortfolioView(r.value.view, padsYears) <==> PortfolioDatesReformat(Some(q), padsYears))
            && r.value.view.PresentView? && r.value.view.observations == ObservationsOf(q.records)
  {
    AbsentRecords(q, roles);
    if q.sourcePresent {
      BoundViewDerives(q, roles);
      AnyRecordsValid(q, roles);
      ObservationsDerive(q, roles);
    } else {
      AbsentViewDerives(q, roles, padsYears);
    }
  }

  // ----- the whole view -----

  predicate DatesReformat(p: Policy, portfolio: Option<Portfolio>, padsYears: bool)
    requires IsDateText(p.asOf)
  {
    Reformats(p.asOf, padsYears) && PortfolioDatesReformat(portfolio, padsYears)
  }

  lemma VisibleOutside(view: PolicyView, portfolio: PortfolioView, limitations: seq<Limitation>, outside: seq<string>)
    requires GoodLimitations(limitations, outside) && |outside| <= 256
    requires Universe.Distinct(outside) && 1 <= |limitations| <= MAXIMUM_CONTRACT_LIMITATIONS
    requires forall t :: t in outside ==> SourceText.IsTicker(t) && t in VisibleTickers(view, portfolio)
    ensures AllVisible(limitations, VisibleTickers(view, portfolio))
    ensures ValidLimitations(limitations, VisibleTickers(view, portfolio))
  {
    forall i | 0 <= i < |limitations| ensures ValidLimitation(limitations[i], VisibleTickers(view, portfolio)) {
      assert limitations[i] in limitations;
    }
  }

  lemma OutsideVisible(p: Policy, portfolio: Option<Portfolio>)
    requires SoundParts(p, portfolio)
    ensures DerivePortfolioView(PresenceOf(portfolio), portfolio).Ok?
    ensures var d := DerivePortfolioView(PresenceOf(portfolio), portfolio).value;
            && d.outside == OutsideOf(portfolio) && Universe.Distinct(d.outside) && |d.outside| <= 256
            && forall t, v :: t in d.outside ==> SourceText.IsTicker(t) && t in VisibleTickers(v, d.view)
  {
    if portfolio.Some? {
      var q, roles := portfolio.value, p.universe.roles;
      PortfolioViewDerives(q, roles, true);
      AbsentRecords(q, roles);
      if q.openStatus.OpenSourceValidated? {
        ObservationsDerive(q, roles);
        var d := DerivePortfolioView(PresenceOf(portfolio), portfolio).value;
        forall t, v | t in d.outside ensures SourceText.IsTicker(t) && t in VisibleTickers(v, d.view) {
          var i :| 0 <= i < |q.records| && ObservationsOf(q.records)[i].ticker == t;
          assert d.view.observations[i] in d.view.observations;
        }
      }
    }
  }

  /**
   For sound projections the derivation raises none of its own errors, shows exactly as many
   limitations as counted, never more than twelve, and what it yields passes the view contract
   if and only if its dates reformat to themselves.
   */
  lemma ViewDerives(p: Policy, portfolio: Option<Portfolio>, padsYears: bool)
    requires SoundParts(p, portfolio)
    ensures DeriveView(p, PresenceOf(portfolio), portfolio).Ok?
    ensures var v := DeriveView(p, PresenceOf(portfolio), portfolio).value;
            && |v.limitations| == LimitationCount(p, portfolio) <= MAXIMUM_SOURCE_BOUND_LIMITATIONS
            && RanksIncrease(v.limitations)
            && (ValidView(v, padsYears) <==> DatesReformat(p, portfolio, padsYears))
  {
    PolicyViewDerives(p, padsYears);
    OutsideVisible(p, portfolio);
    LimitationsDerive(p, portfolio);
    var view, derived := DerivePolicyView(p).value, DerivePortfolioView(PresenceOf(portfolio), portfolio).value;
    var limitations := TranslateLimitations(p, PresenceOf(portfolio), portfolio, derived.outside).value;
    VisibleOutside(view, derived.view, limitations, derived.outside);
    if portfolio.Some? {
      PortfolioViewDerives(portfolio.value, p.universe.roles, padsYears);
    }
  }

  /** Twelve is reached exactly so. */
  lemma TwelveExactly(p: Policy, portfolio: Option<Portfolio>)
    ensures LimitationCount(p, portfolio) == 12 <==>
              && p.maxNew.status.Unavailable? && p.constraints.status.Unavailable?
              && portfolio.Some? && SourceLimited(portfolio.value) && OrdersLimited(portfolio.value)
  {
  }

  // ----- from settings and snapshot text to the view -----

  datatype Environment = Environment(
    context: RunContext,
    eastern: EasternInstant,
    padsYears: bool,
    format: Format,
    accepts: Commitments.CrossCheck,
    isWord: WordClass,
    identifyUniverse: Universe.IdentifyUniverse,
    identifyPolicy: IdentifyPolicy,
    identifyPortfolio: IdentifyPortfolio)

  ghost predicate IdentitiesIgnoreSlots(e: Environment) {
    Universe.IgnoresSlot(e.identifyUniverse) && PolicyIgnoresSlot(e.identifyPolicy)
    && PortfolioIgnoresSlot(e.identifyPortfolio)
  }

  function BuiltPolicy(settings: Universe.Settings, sourceIdentity: string,
                       e: Environment): Result<Policy, Universe.Failure> {
    BuildPolicy(settings, sourceIdentity, e.context, e.eastern, e.padsYears, e.identifyUniverse, e.identifyPolicy)
  }

  function BuiltPortfolio(source: Option<Source>, p: Policy, e: Environment): Result<Portfolio, PortfolioFailure> {
    BuildPortfolio(e.format, source, p.identity, p.universe.roles, e.context, e.accepts, e.isWord, e.identifyPortfolio)
  }

  lemma BuiltPolicySound(settings: Universe.Settings, sourceIdentity: string, e: Environment)
    requires IdentitiesIgnoreSlots(e) && BuiltPolicy(settings, sourceIdentity, e).Ok?
    ensures SoundParts(BuiltPolicy(settings, sourceIdentity, e).value, None)
  {
    BuiltPolicyIsValid(settings, sourceIdentity, e.context, e.eastern, e.padsYears, e.identifyUniverse,
                       e.identifyPolicy);
  }

  lemma BuiltPortfolioSound(source: Option<Source>, p: Policy, e: Environment)
    requires IdentitiesIgnoreSlots(e) && SoundParts(p, None) && BuiltPortfolio(source, p, e).Ok?
    requires source.Some? ==> PortfolioProjection.IsSha256(source.value.identity)
    ensures SoundParts(p, Some(BuiltPortfolio(source, p, e).value))
    ensures BuiltPortfolio(source, p, e).value.sourcePresent == source.Some?
  {
    BuiltPortfolioIsValid(e.format, source, p.identity, p.universe.roles, e.context, e.accepts, e.isWord,
                          e.identifyPortfolio);
  }

  /** Whatever the builders yield is sound. */
  lemma BuiltSound(settings: Universe.Settings, sourceIdentity: string, source: Option<Source>, e: Environment,
                   p: Policy, portfolio: Option<Portfolio>)
    requires IdentitiesIgnoreSlots(e) && BuiltPolicy(settings, sourceIdentity, e) == Ok(p)
    requires source.Some? ==> PortfolioProjection.IsSha256(source.value.identity)
    requires portfolio.Some? ==> BuiltPortfolio(source, p, e) == Ok(portfolio.value)
    ensures SoundParts(p, portfolio)
  {
    BuiltPolicySound(settings, sourceIdentity, e);
    if portfolio.Some? {
      BuiltPortfolioSound(source, p, e);
    }
  }

  /**
   The composed builders always land inside the later contracts: whatever policy is built from
   settings, and whatever portfolio (if any) is built over it, the view derives, with at most
   twelve limitations in strictly increasing table order. The policy passes its own validator, and
   the view its contract, if and only if their timestamp and their dates reformat.
   */
  lemma BuildersCompose(settings: Universe.Settings, sourceIdentity: string, supplied: bool, source: Option<Source>,
                        e: Environment)
    requires IdentitiesIgnoreSlots(e) && BuiltPolicy(settings, sourceIdentity, e).Ok?
    requires source.Some? ==> PortfolioProjection.IsSha256(source.value.identity)
    requires supplied ==> BuiltPortfolio(source, BuiltPolicy(settings, sourceIdentity, e).value, e).Ok?
    ensures var p := BuiltPolicy(settings, sourceIdentity, e).value;
            var portfolio := if supplied then Some(BuiltPortfolio(source, p, e).value) else None;
            var r := DeriveView(p, PresenceOf(portfolio), portfolio);
            && IsDateText(p.asOf) && r.Ok?
            && |r.value.limitations| == LimitationCount(p, portfolio) <= MAXIMUM_SOURCE_BOUND_LIMITATIONS
            && RanksIncrease(r.value.limitations)
            && (ValidPolicy(p, e.padsYears, e.identifyUniverse, e.identifyPolicy) <==>
                  TimesReformat(Universe.Get(settings, Universe.RunTimestampEt), e.context, e.eastern, e.padsYears))
            && (ValidView(r.value, e.padsYears) <==> DatesReformat(p, portfolio, e.padsYears))
  {
    var p := BuiltPolicy(settings, sourceIdentity, e).value;
    BuiltPolicySound(settings, sourceIdentity, e);
    BuiltPolicyIsValid(settings, sourceIdentity, e.context, e.eastern, e.padsYears, e.identifyUniverse,
                       e.identifyPolicy);
    if supplied {
      BuiltPortfolioSound(source, p, e);
      ViewDerives(p, Some(BuiltPortfolio(source, p, e).value), e.padsYears);
    } else {
      ViewDerives(p, None, e.padsYears);
    }
  }
}
