/**
 The largest view: 256 instruments and 256 observations outside the policy with tickers of full
 length, every one of them an affected ticker, and the fourteen longest limitation codes. It is
 valid, and takes every byte the contract allows.
 */
module LargestView {
  import opened Outcomes
  import opened JsonValues
  import opened Canonical
  import opened PlainJson
  import opened ViewNames
  import opened ViewText
  import opened ViewBound
  import opened Timestamps
  import opened Dates
  import Decimals
  import Digits
  import SourceText
  import Universe
  import opened PortfolioProjection
  import opened AnalystView
  import opened ViewContract

  // ----- tickers -----

  /** A letter, a number of three digits, and twelve letters more. */
  function FullTicker(c: char, i: nat): (t: string)
    ensures |t| == 16
  {
    [c] + Fixed(i, 3) + "XXXXXXXXXXXX"
  }

  lemma FullTickerValid(c: char, i: nat)
    requires 'A' <= c <= 'Z'
    ensures SourceText.IsTicker(FullTicker(c, i))
  {
    var t := FullTicker(c, i);
    assert forall k :: 1 <= k < 4 ==> t[k] == Fixed(i, 3)[k - 1];
    assert forall k :: 4 <= k < 16 ==> t[k] == 'X';
  }

  lemma FullTickersDiffer(c: char, i: nat, j: nat)
    requires i < 256 && j < 256 && FullTicker(c, i) == FullTicker(c, j)
    ensures i == j
  {
    assert FullTicker(c, i)[1..4] == Fixed(i, 3) && FullTicker(c, j)[1..4] == Fixed(j, 3);
    assert Digits.Pow10(3) == 1000;
    FixedNumber(i, 3);
    FixedNumber(j, 3);
  }

  function FullTickers(c: char): (r: seq<string>)
    ensures |r| == 256 && forall i :: 0 <= i < 256 ==> r[i] == FullTicker(c, i)
  {
    seq(256, i requires 0 <= i < 256 => FullTicker(c, i))
  }

  // ----- the view -----

  function RoleAt(i: nat): Universe.Role {
    if i == 0 then Universe.Core else if i == 1 then Universe.Satellite else Universe.ApprovedExtended
  }

  function FullInstruments(): (r: seq<Instrument>)
    ensures |r| == 256 && forall i :: 0 <= i < 256 ==> r[i] == Instrument(FullTicker('C', i), RoleAt(i))
  {
    seq(256, i requires 0 <= i < 256 => Instrument(FullTicker('C', i), RoleAt(i)))
  }

  function FullObservations(): (r: seq<Observation>)
    ensures |r| == 256 && forall i :: 0 <= i < 256 ==> r[i] == Observation(FullTicker('Z', i), OutsidePolicyUniverse)
  {
    seq(256, i requires 0 <= i < 256 => Observation(FullTicker('Z', i), OutsidePolicyUniverse))
  }

  /** Every place but the first and the thirteenth, whose codes are the shortest. */
  function PlaceAt(i: nat): nat {
    if i < 11 then i + 1 else i + 2
  }

  function FullLimitation(place: nat): Limitation {
    Limitation(OwnerAt(place), place, if place == OUTSIDE_PLACE then FullTickers('Z') else [])
  }

  function FullLimitations(): (r: seq<Limitation>)
    ensures |r| == 14 && forall i :: 0 <= i < 14 ==> r[i] == FullLimitation(PlaceAt(i))
  {
    seq(14, i requires 0 <= i < 14 => FullLimitation(PlaceAt(i)))
  }

  function FullPolicy(date: string): PolicyView {
    PolicyView(date, [FullTicker('C', 0)], FullInstruments())
  }

  function FullPortfolio(date: string): PortfolioView {
    PresentView(SourceBound, Some(date), OpenSourceValidated, FullObservations())
  }

  function FullView(date: string): View {
    View(FullPolicy(date), FullPortfolio(date), FullLimitations())
  }

  // ----- it is valid -----

  lemma FullPolicyValid(date: string, padsYears: bool)
    requires IsDateText(date) && Reformats(date, padsYears)
    ensures ValidPolicyView(FullPolicy(date), padsYears)
  {
    var xs := FullInstruments();
    forall i | 0 <= i < 256 ensures SourceText.IsTicker(xs[i].ticker) {
      FullTickerValid('C', i);
    }
    forall i, j | 0 <= i < j < 256
      ensures RoleOrder(xs[i].role) <= RoleOrder(xs[j].role) && xs[i].ticker != xs[j].ticker
    {
      if xs[i].ticker == xs[j].ticker {
        FullTickersDiffer('C', i, j);
      }
    }
    FullTickerValid('C', 0);
    assert xs[0] == Instrument(FullTicker('C', 0), Universe.Core) && xs[1].role == Universe.Satellite;
  }

  lemma FullPortfolioValid(date: string, padsYears: bool)
    requires IsDateText(date) && Reformats(date, padsYears)
    ensures ValidPortfolioView(FullPortfolio(date), padsYears)
  {
    var xs := FullObservations();
    forall i | 0 <= i < 256 ensures SourceText.IsTicker(xs[i].ticker) {
      FullTickerValid('Z', i);
    }
    forall i, j | 0 <= i < j < 256 ensures xs[i].ticker != xs[j].ticker {
      if xs[i].ticker == xs[j].ticker {
        FullTickersDiffer('Z', i, j);
      }
    }
  }

  lemma FullTickersDistinct()
    ensures Universe.Distinct(FullTickers('Z')) && Tickers(FullTickers('Z'))
  {
    var ts := FullTickers('Z');
    forall i | 0 <= i < 256 ensures SourceText.IsTicker(ts[i]) {
      FullTickerValid('Z', i);
    }
    forall i, j | 0 <= i < j < 256 ensures ts[i] != ts[j] {
      if ts[i] == ts[j] {
        FullTickersDiffer('Z', i, j);
      }
    }
  }

  lemma FullLimitationsValid(date: string)
    ensures ValidLimitations(FullLimitations(), VisibleTickers(FullPolicy(date), FullPortfolio(date)))
  {
    var visible := VisibleTickers(FullPolicy(date), FullPortfolio(date));
    FullTickersDistinct();
    forall t | t in FullTickers('Z') ensures SourceText.IsTicker(t) && t in visible {
      var i :| 0 <= i < 256 && FullTickers('Z')[i] == t;
      assert FullObservations()[i].ticker == t && FullObservations()[i] in FullObservations();
    }
    forall i | 0 <= i < 14 ensures ValidLimitation(FullLimitations()[i], visible) {
      assert Universe.Distinct([]);
    }
  }

  // ----- it takes every byte -----

  function RoleBytes(i: nat): nat {
    if i == 0 then 50 else if i == 1 then 55 else 63
  }

  lemma FullInstrumentAt(n: Names, i: nat)
    requires Sized(n) && i < 256
    ensures Length(Instruments(n, FullInstruments())[i]) == RoleBytes(i)
  {
    FullTickerValid('C', i);
    InstrumentMeasures(n, FullInstruments()[i]);
  }

  lemma FullInstrumentBytes(n: Names)
    requires Sized(n)
    ensures ItemBytes(Instruments(n, FullInstruments()), 0) == 16_363
  {
    var items := Instruments(n, FullInstruments());
    FullInstrumentAt(n, 0);
    NextItem(items, 0, 50);
    FullInstrumentAt(n, 1);
    NextItem(items, 1, 55);
    LaterInstrumentBytes(n);
  }

  lemma LaterInstrumentBytes(n: Names)
    requires Sized(n)
    ensures ItemBytes(Instruments(n, FullInstruments()), 2) == 16_256
  {
    var items := Instruments(n, FullInstruments());
    forall i | 2 <= i < 256 ensures Length(items[i]) == 63 {
      FullInstrumentAt(n, i);
    }
    EvenItems(items, 2, 63);
  }

  lemma FullObservationBytes(n: Names)
    requires Sized(n)
    ensures ObservedLength(n, FullObservations()) == 23_297
  {
    var xs := FullObservations();
    forall i | 0 <= i < 256 ensures Length(Observed(n, xs)[i]) == 90 {
      FullTickerValid('Z', i);
      ObservationMeasures(n, xs[i]);
    }
    EvenItems(Observed(n, xs), 0, 90);
  }

  lemma FullTickerAt(i: nat)
    requires i < 256
    ensures Length(Words(FullTickers('Z'))[i]) == 18
  {
    FullTickerValid('Z', i);
    PlainTickers(FullTicker('Z', i));
    AnyWordMeasures(FullTicker('Z', i));
  }

  lemma FullTickerBytes()
    ensures ItemBytes(Words(FullTickers('Z')), 0) == 4864
  {
    forall i | 0 <= i < 256 ensures Length(Words(FullTickers('Z'))[i]) == 18 {
      FullTickerAt(i);
    }
    EvenItems(Words(FullTickers('Z')), 0, 18);
  }

  /** What the limitations from i on take. */
  function FullWeights(i: nat): nat
    requires i <= 14
    decreases 14 - i
  {
    if i == 14 then 0 else WeightOf(PlaceAt(i)) + (if i == 13 then 4863 else 0) + FullWeights(i + 1)
  }

  lemma FullWeightsWhole()
    ensures FullWeights(0) == 6388
  {
    assert FullWeights(12) == 108 + 118 + 4863;
    assert FullWeights(8) == 105 + 105 + 106 + 108 + FullWeights(12);
    assert FullWeights(4) == 113 + 108 + 113 + 101 + FullWeights(8);
  }

  lemma FullLimitationAt(n: Names, i: nat)
    requires Sized(n) && i < 14
    ensures Length(LimitationJson(n, FullLimitations()[i])) + 1 == WeightOf(PlaceAt(i)) + if i == 13 then 4863 else 0
  {
    FullTickersDistinct();
    FullTickerBytes();
    LimitationTakes(n, FullLimitations()[i]);
  }

  lemma {:induction false} FullLimitationBytes(n: Names, i: nat)
    requires Sized(n) && i <= 14
    ensures ItemBytes(Limitations(n, FullLimitations()), i) == FullWeights(i)
    decreases 14 - i
  {
    if i < 14 {
      FullLimitationBytes(n, i + 1);
      FullLimitationAt(n, i);
    }
  }

  lemma FullListed(n: Names)
    requires Sized(n)
    ensures Takes(Arr(Limitations(n, FullLimitations())), 6389, 3641, 3)
  {
    FullTickersDistinct();
    LimitationListMeasures(n, FullLimitations());
    FullLimitationBytes(n, 0);
    FullWeightsWhole();
  }

  lemma FullPolicyBytes(n: Names, date: string)
    requires Sized(n) && IsDateText(date)
    ensures Takes(PolicyJson(n, FullPolicy(date)), 16_750, 777, 3)
  {
    FullPolicyValid(date, true);
    FullInstrumentBytes(n);
    PolicyLength(n, FullPolicy(date));
  }

  lemma FullPortfolioBytes(n: Names, date: string)
    requires Sized(n) && IsDateText(date)
    ensures Takes(PortfolioJson(n, FullPortfolio(date)), 23_903, 784, 3)
  {
    FullPortfolioValid(date, true);
    FullObservationBytes(n);
    PortfolioLength(n, FullPortfolio(date));
  }

  /** The bound is reached: this view is accepted, and prints to exactly 47,584 bytes. */
  lemma BoundReached(date: string, h: Header, padsYears: bool)
    requires IsDateText(date) && Reformats(date, padsYears) && ValidHeader(h, padsYears)
    ensures ContractAccepts(FullView(date), h, padsYears)
    ensures |CanonicalJsonBytes(ViewJson(VIEW_NAMES, FullView(date), h), MAXIMUM_VIEW_BYTES).value|
            == MAXIMUM_VIEW_BYTES
  {
    FullPolicyValid(date, padsYears);
    FullPortfolioValid(date, padsYears);
    FullLimitationsValid(date);
    BoundNeverRejects(FullView(date), h, padsYears);
    ViewNamesSized();
    FullPolicyBytes(VIEW_NAMES, date);
    FullPortfolioBytes(VIEW_NAMES, date);
    FullListed(VIEW_NAMES);
    ViewLength(VIEW_NAMES, FullView(date), h, padsYears, 16_750, 23_903, 6389, 777, 784, 3641);
    PlainCanonical(ViewJson(VIEW_NAMES, FullView(date), h), MAXIMUM_VIEW_BYTES);
  }
}
