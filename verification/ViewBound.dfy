/**
 The largest view. Every view that holds to the rest of the contract prints to at most 47,584
 bytes, so the bound the contract checks last never rejects one, and there is a view of exactly
 that size.
 */
module ViewBound {
  import opened Outcomes
  import opened Texts
  import opened JsonValues
  import opened Canonical
  import opened PlainJson
  import opened ViewNames
  import opened ViewText
  import Identity
  import PreparedHandoff
  import opened Dates
  import SourceText
  import Universe
  import opened PortfolioProjection
  import opened AnalystView
  import opened ViewContract
  import opened PolicyProjection
  import ComposedView

  const MAXIMUM_VIEW_BYTES: int := 47_584

  // ----- the parts -----

  lemma AnyWordMeasures(s: string)
    requires PlainWord(s)
    ensures IsPlainJson(AnyWord(s)) && Length(AnyWord(s)) == |s| + 2 && Nodes(AnyWord(s)) == 1 && Depth(AnyWord(s)) == 0
  {
    WordMeasures(s);
  }

  lemma InstrumentMeasures(n: Names, x: Instrument)
    requires Sized(n)
    requires SourceText.IsTicker(x.ticker)
    ensures IsPlainJson(InstrumentJson(n, x)) && Nodes(InstrumentJson(n, x)) == 3 && Depth(InstrumentJson(n, x)) <= 1
    ensures Length(InstrumentJson(n, x)) == 30 + |RoleName(x.role)| + |x.ticker|
  {
    var fields := [Field(n.ticker, AnyWord(x.ticker)), Field(n.role, Word(RoleName(x.role)))];
    PlainTickers(x.ticker);
    AnyWordMeasures(x.ticker);
    WordMeasures(RoleName(x.role));
    ObjectMeasures(fields, 0);
    OneField(fields, 0);
    OneField(fields, 1);
  }

  lemma ObservationMeasures(n: Names, x: Observation)
    requires Sized(n)
    requires SourceText.IsTicker(x.ticker)
    ensures IsPlainJson(ObservationJson(n, x)) && Nodes(ObservationJson(n, x)) == 3 && Depth(ObservationJson(n, x)) <= 1
    ensures Length(ObservationJson(n, x)) == 51 + |ClassName(x.classification)| + |x.ticker|
  {
    var fields := [Field(n.ticker, AnyWord(x.ticker)), Field(n.classification, Word(ClassName(x.classification)))];
    PlainTickers(x.ticker);
    AnyWordMeasures(x.ticker);
    WordMeasures(ClassName(x.classification));
    ObjectMeasures(fields, 0);
    OneField(fields, 0);
    OneField(fields, 1);
  }

  predicate Tickers(ss: seq<string>) {
    forall i :: 0 <= i < |ss| ==> SourceText.IsTicker(ss[i])
  }

  lemma WordsMeasures(ss: seq<string>)
    requires Tickers(ss)
    ensures IsPlainJson(Arr(Words(ss))) && Nodes(Arr(Words(ss))) <= 1 + |ss| && Depth(Arr(Words(ss))) <= 1
    ensures Length(Arr(Words(ss))) == if ss == [] then 2 else 1 + ItemBytes(Words(ss), 0)
  {
    forall i | 0 <= i < |ss|
      ensures IsPlainJson(Words(ss)[i]) && Nodes(Words(ss)[i]) <= 1 && Depth(Words(ss)[i]) <= 0
    {
      PlainTickers(ss[i]);
      AnyWordMeasures(ss[i]);
    }
    ArrayMeasures(Words(ss), 1, 0);
  }

  lemma WordsAtMost(ss: seq<string>)
    requires Tickers(ss)
    ensures ItemBytes(Words(ss), 0) <= 19 * |ss|
  {
    forall i | 0 <= i < |ss| ensures Length(Words(ss)[i]) + 1 <= 19 {
      PlainTickers(ss[i]);
      AnyWordMeasures(ss[i]);
    }
    ItemsAtMost(Words(ss), 0, 19);
  }

  lemma LimitationSum(n: Names, owner: Json, code: Json, affected: Json)
    requires SmallSized(n) && IsPlainJson(owner) && IsPlainJson(code) && IsPlainJson(affected)
    requires Depth(owner) <= 1 && Depth(code) <= 1 && Depth(affected) <= 1
    ensures var j := Object([Field(n.owner, owner), Field(n.code, code), Field(n.affected, affected)]);
            && IsPlainJson(j) && Depth(j) <= 2 && Nodes(j) == 1 + Nodes(owner) + Nodes(code) + Nodes(affected)
            && Length(j) == 38 + Length(owner) + Length(code) + Length(affected)
  {
    var fields := [Field(n.owner, owner), Field(n.code, code), Field(n.affected, affected)];
    ObjectMeasures(fields, 1);
    OneField(fields, 0);
    OneField(fields, 1);
    OneField(fields, 2);
  }

  lemma LimitationMeasures(n: Names, l: Limitation)
    requires Sized(n)
    requires Tickers(l.tickers)
    ensures IsPlainJson(LimitationJson(n, l)) && Nodes(LimitationJson(n, l)) <= 4 + |l.tickers|
            && Depth(LimitationJson(n, l)) <= 2
    ensures Length(LimitationJson(n, l))
            == 42 + |OwnerName(l.owner)| + |CodeName(l.code)| + Length(Arr(Words(l.tickers)))
  {
    WordMeasures(OwnerName(l.owner));
    WordMeasures(CodeName(l.code));
    WordsMeasures(l.tickers);
    LimitationSum(n, Word(OwnerName(l.owner)), Word(CodeName(l.code)), Arr(Words(l.tickers)));
  }

  // ----- the lists of instruments and observations -----

  predicate HasRole(xs: seq<Instrument>, k: nat, r: Universe.Role) {
    exists i :: k <= i < |xs| && xs[i].role == r
  }

  /** A core and a satellite instrument are shorter than an extended one. */
  function Shorter(xs: seq<Instrument>, k: nat): nat {
    (if HasRole(xs, k, Universe.Core) then 13 else 0) + (if HasRole(xs, k, Universe.Satellite) then 8 else 0)
  }

  lemma RoleStep(xs: seq<Instrument>, k: nat, r: Universe.Role)
    requires k < |xs|
    ensures HasRole(xs, k, r) <==> xs[k].role == r || HasRole(xs, k + 1, r)
  {
  }

  /** How much shorter than an extended instrument one is. */
  function ShorterBy(r: Universe.Role): nat {
    match r
    case Core => 13
    case Satellite => 8
    case ApprovedExtended => 0
  }

  lemma ShorterStep(xs: seq<Instrument>, k: nat)
    requires k < |xs|
    ensures Shorter(xs, k) <= ShorterBy(xs[k].role) + Shorter(xs, k + 1)
  {
    RoleStep(xs, k, Universe.Core);
    RoleStep(xs, k, Universe.Satellite);
  }

  lemma InstrumentTakes(n: Names, x: Instrument)
    requires Sized(n) && SourceText.IsTicker(x.ticker)
    ensures Length(InstrumentJson(n, x)) + 1 + ShorterBy(x.role) <= 64
  {
    InstrumentMeasures(n, x);
  }

  lemma {:induction false} RolesAtMost(items: seq<Json>, xs: seq<Instrument>, k: nat)
    requires |items| == |xs| && k <= |xs| && forall i :: 0 <= i < |xs| ==>
               Length(items[i]) + 1 + ShorterBy(xs[i].role) <= 64
    ensures ItemBytes(items, k) + Shorter(xs, k) <= 64 * (|xs| - k)
    decreases |xs| - k
  {
    if k < |xs| {
      RolesAtMost(items, xs, k + 1);
      ShorterStep(xs, k);
      NextItem(items, k, Length(items[k]));
    }
  }

  lemma InstrumentsAtMost(n: Names, xs: seq<Instrument>)
    requires Sized(n) && forall i :: 0 <= i < |xs| ==> SourceText.IsTicker(xs[i].ticker)
    ensures ItemBytes(Instruments(n, xs), 0) + Shorter(xs, 0) <= 64 * |xs|
  {
    var items := Instruments(n, xs);
    forall i | 0 <= i < |xs| ensures Length(items[i]) + 1 + ShorterBy(xs[i].role) <= 64 {
      InstrumentTakes(n, xs[i]);
    }
    RolesAtMost(items, xs, 0);
  }

  lemma ObservationsAtMost(n: Names, xs: seq<Observation>)
    requires Sized(n) && forall i :: 0 <= i < |xs| ==> SourceText.IsTicker(xs[i].ticker)
    ensures ItemBytes(Observed(n, xs), 0) <= 91 * |xs|
  {
    forall i | 0 <= i < |xs| ensures Length(Observed(n, xs)[i]) + 1 <= 91 {
      ObservationMeasures(n, xs[i]);
    }
    ItemsAtMost(Observed(n, xs), 0, 91);
  }

  lemma InstrumentListMeasures(n: Names, xs: seq<Instrument>)
    requires Sized(n)
    requires xs != [] && forall i :: 0 <= i < |xs| ==> SourceText.IsTicker(xs[i].ticker)
    ensures var v := Arr(Instruments(n, xs));
            IsPlainJson(v) && Depth(v) <= 2 && Nodes(v) <= 1 + 3 * |xs|
            && Length(v) == 1 + ItemBytes(Instruments(n, xs), 0)
  {
    forall i | 0 <= i < |xs|
      ensures IsPlainJson(Instruments(n, xs)[i]) && Nodes(Instruments(n, xs)[i]) <= 3
              && Depth(Instruments(n, xs)[i]) <= 1
    {
      InstrumentMeasures(n, xs[i]);
    }
    ArrayMeasures(Instruments(n, xs), 3, 1);
  }

  function ObservedLength(n: Names, xs: seq<Observation>): nat {
    if xs == [] then 2 else 1 + ItemBytes(Observed(n, xs), 0)
  }

  lemma ObservationListMeasures(n: Names, xs: seq<Observation>)
    requires Sized(n)
    requires forall i :: 0 <= i < |xs| ==> SourceText.IsTicker(xs[i].ticker)
    ensures var v := Arr(Observed(n, xs));
            IsPlainJson(v) && Depth(v) <= 2 && Nodes(v) <= 1 + 3 * |xs| && Length(v) == ObservedLength(n, xs)
  {
    forall i | 0 <= i < |xs|
      ensures IsPlainJson(Observed(n, xs)[i]) && Nodes(Observed(n, xs)[i]) <= 3 && Depth(Observed(n, xs)[i]) <= 1
    {
      ObservationMeasures(n, xs[i]);
    }
    ArrayMeasures(Observed(n, xs), 3, 1);
  }

  // ----- the list of limitations -----

  /** What the limitation at a place takes without its tickers, a separator included. */
  function Weight(place: nat): nat {
    45 + |OwnerName(OwnerAt(place))| + |CodeName(place)|
  }

  lemma EarlyStems()
    ensures |STEM_0| == 22 && |STEM_1| == 43 && |STEM_2| == 32 && |STEM_3| == 31
    ensures |STEM_4| == 38 && |STEM_5| == 39 && |STEM_6| == 34 && |STEM_7| == 39
  {
  }

  lemma LateStems()
    ensures |STEM_8| == 27 && |STEM_9| == 31 && |STEM_10| == 31 && |STEM_11| == 32
    ensures |STEM_12| == 14 && |STEM_13| == 28 && |STEM_14| == 28 && |STEM_15| == 38
  {
  }

  function WeightOf(place: nat): nat {
    match place
    case 0 => 96
    case 1 => 117
    case 2 => 106
    case 3 => 105
    case 4 => 112
    case 5 => 113
    case 6 => 108
    case 7 => 113
    case 8 => 101
    case 9 => 105
    case 10 => 105
    case 11 => 106
    case 12 => 94
    case 13 => 108
    case 14 => 108
    case _ => 118
  }

  lemma WeightFromStem(place: nat)
    ensures Weight(place) == 50 + |CodeStem(place)|
              + if place < EVIDENCE_PLACE then 24 else if place == EVIDENCE_PLACE then 24 else 30
  {
  }

  lemma WeightAt(place: nat)
    requires place < 16
    ensures Weight(place) == WeightOf(place)
  {
    WeightFromStem(place);
    EarlyStems();
    LateStems();
  }

  /** The places from k on, all of them. */
  function Suffix(k: nat): nat
    requires k <= 16
    decreases 16 - k
  {
    if k == 16 then 0 else WeightOf(k) + Suffix(k + 1)
  }

  /** The least that leaving out so many places from k on saves; one place alone weighs under 96. */
  function Saved(spare: int, k: nat): nat {
    if spare <= 0 then 0
    else if spare == 1 then (if k <= 12 then 94 else 96)
    else 190
  }

  lemma SavedStep(spare: int, k: nat)
    requires k < 16 && spare > 0
    ensures WeightOf(k) + Saved(spare - 1, k + 1) >= Saved(spare, k)
  {
  }

  lemma SuffixWhole()
    ensures Suffix(0) == 1715
  {
    assert Suffix(12) == 94 + 108 + 108 + 118;
    assert Suffix(8) == 101 + 105 + 105 + 106 + Suffix(12);
    assert Suffix(4) == 112 + 113 + 108 + 113 + Suffix(8);
  }

  /** Tickers are affected by the last code alone. */
  predicate Listed(ls: seq<Limitation>) {
    && RanksIncrease(ls)
    && forall i :: 0 <= i < |ls| ==>
         && ls[i].code <= OUTSIDE_PLACE && ls[i].owner == OwnerAt(ls[i].code) && Tickers(ls[i].tickers)
         && |ls[i].tickers| <= 256 && (ls[i].code == OUTSIDE_PLACE <==> ls[i].tickers != [])
  }

  /** What the limitation takes in the list. */
  lemma LimitationTakes(n: Names, l: Limitation)
    requires Sized(n)
    requires l.code <= OUTSIDE_PLACE && l.owner == OwnerAt(l.code) && Tickers(l.tickers) && |l.tickers| <= 256
    ensures Length(LimitationJson(n, l)) + 1 == WeightOf(l.code) + if l.tickers == [] then 0
                                                                   else ItemBytes(Words(l.tickers), 0) - 1
    ensures l.tickers != [] ==> ItemBytes(Words(l.tickers), 0) <= 4864
  {
    LimitationMeasures(n, l);
    WordsMeasures(l.tickers);
    WordsAtMost(l.tickers);
    WeightAt(l.code);
  }

  /** Room for the tickers, as long as their place is still to come. */
  function TickerRoom(k: nat): nat {
    if k < 16 then 4863 else 0
  }

  /** The numbers from i on, added up. */
  function SumFrom(takes: seq<nat>, i: nat): nat
    requires i <= |takes|
    decreases |takes| - i
  {
    if i == |takes| then 0 else takes[i] + SumFrom(takes, i + 1)
  }

  lemma TakeStep(k: nat, spare: int, first: nat, rest: nat)
    requires k < 16 && first <= WeightOf(k) + if k == OUTSIDE_PLACE then 4863 else 0
    requires rest + Saved(spare, k + 1) <= Suffix(k + 1) + TickerRoom(k + 1)
    ensures first + rest + Saved(spare, k) <= Suffix(k) + TickerRoom(k)
  {
  }

  lemma SkipStep(k: nat, spare: int, rest: nat)
    requires k < 16 && spare > 0 && rest + Saved(spare - 1, k + 1) <= Suffix(k + 1) + TickerRoom(k + 1)
    ensures rest + Saved(spare, k) <= Suffix(k) + TickerRoom(k)
  {
    SavedStep(spare, k);
  }

  /** Increasing places, each taking no more than its weight, and the last one its tickers besides. */
  predicate Weighed(places: seq<nat>, takes: seq<nat>) {
    && |places| == |takes| && (forall i, j :: 0 <= i < j < |places| ==> places[i] < places[j])
    && forall i :: 0 <= i < |places| ==>
         places[i] < 16 && takes[i] <= WeightOf(places[i]) + if places[i] == OUTSIDE_PLACE then 4863 else 0
  }

  lemma {:induction false} PlacesAtMost(places: seq<nat>, takes: seq<nat>, i: nat, k: nat)
    requires Weighed(places, takes) && i <= |places| && k <= 16 && (i < |places| ==> places[i] >= k)
    ensures |places| - i <= 16 - k
    ensures SumFrom(takes, i) + Saved((16 - k) - (|places| - i), k) <= Suffix(k) + TickerRoom(k)
    decreases 16 - k
  {
    if k == 16 {
      assert i == |places|;
    } else if i < |places| && places[i] == k {
      PlacesAtMost(places, takes, i + 1, k + 1);
      TakeStep(k, (16 - k) - (|places| - i), takes[i], SumFrom(takes, i + 1));
    } else {
      PlacesAtMost(places, takes, i, k + 1);
      SkipStep(k, (16 - k) - (|places| - i), SumFrom(takes, i));
    }
  }

  lemma {:induction false} ItemsAdd(items: seq<Json>, takes: seq<nat>, i: nat)
    requires |items| == |takes| && i <= |items| && forall j :: 0 <= j < |items| ==> Length(items[j]) + 1 == takes[j]
    ensures ItemBytes(items, i) == SumFrom(takes, i)
    decreases |items| - i
  {
    if i < |items| {
      ItemsAdd(items, takes, i + 1);
      NextItem(items, i, Length(items[i]));
    }
  }

  function Places(ls: seq<Limitation>): (r: seq<nat>)
    ensures |r| == |ls| && forall i :: 0 <= i < |ls| ==> r[i] == ls[i].code
  {
    seq(|ls|, i requires 0 <= i < |ls| => ls[i].code)
  }

  function Lengths(items: seq<Json>): (r: seq<nat>)
    ensures |r| == |items| && forall i :: 0 <= i < |items| ==> r[i] == Length(items[i]) + 1
  {
    seq(|items|, i requires 0 <= i < |items| => Length(items[i]) + 1)
  }

  lemma LimitationWeighs(n: Names, l: Limitation)
    requires Sized(n)
    requires l.code <= OUTSIDE_PLACE && l.owner == OwnerAt(l.code) && Tickers(l.tickers) && |l.tickers| <= 256
    requires l.code == OUTSIDE_PLACE <==> l.tickers != []
    ensures Length(LimitationJson(n, l)) + 1 <= WeightOf(l.code) + if l.code == OUTSIDE_PLACE then 4863 else 0
  {
    LimitationTakes(n, l);
  }

  lemma LimitationsWeigh(n: Names, ls: seq<Limitation>)
    requires Sized(n) && Listed(ls)
    ensures Weighed(Places(ls), Lengths(Limitations(n, ls)))
  {
    forall i | 0 <= i < |ls|
      ensures Lengths(Limitations(n, ls))[i] <= WeightOf(Places(ls)[i]) + if Places(ls)[i] == OUTSIDE_PLACE then 4863
                                                                          else 0
    {
      LimitationWeighs(n, ls[i]);
    }
  }

  /** What a list of limitations takes at most, whichever fourteen or fewer it holds. */
  lemma LimitationsAtMost(n: Names, ls: seq<Limitation>)
    requires Sized(n) && Listed(ls) && |ls| <= 14
    ensures ItemBytes(Limitations(n, ls), 0) <= 6388
  {
    var items := Limitations(n, ls);
    LimitationsWeigh(n, ls);
    ItemsAdd(items, Lengths(items), 0);
    FourteenAtMost(Places(ls), Lengths(items));
  }

  lemma FourteenAtMost(places: seq<nat>, takes: seq<nat>)
    requires Weighed(places, takes) && |places| <= 14
    ensures SumFrom(takes, 0) <= 6388
  {
    PlacesAtMost(places, takes, 0, 0);
    SuffixWhole();
  }

  lemma LimitationListMeasures(n: Names, ls: seq<Limitation>)
    requires Sized(n)
    requires ls != [] && |ls| <= 14 && Listed(ls)
    ensures var v := Arr(Limitations(n, ls));
            && IsPlainJson(v) && Depth(v) <= 3 && Nodes(v) <= 1 + |ls| * 260
            && Length(v) == 1 + ItemBytes(Limitations(n, ls), 0) <= 6389
  {
    forall i | 0 <= i < |ls|
      ensures IsPlainJson(Limitations(n, ls)[i]) && Nodes(Limitations(n, ls)[i]) <= 260
              && Depth(Limitations(n, ls)[i]) <= 2
    {
      LimitationMeasures(n, ls[i]);
    }
    ArrayMeasures(Limitations(n, ls), 260, 2);
    LimitationsAtMost(n, ls);
  }

  // ----- the parts of the view -----

  lemma BenchmarkMeasures(b: string)
    requires SourceText.IsTicker(b)
    ensures var v := Arr(Words([b])); IsPlainJson(v) && Length(v) == |b| + 4 && Nodes(v) <= 2 && Depth(v) <= 1
  {
    WordsMeasures([b]);
    PlainTickers(b);
    AnyWordMeasures(b);
    assert ItemBytes(Words([b]), 1) == 0;
  }

  function PolicySizes(benchmark: nat, list: nat, nodes: nat): seq<Size> {
    [Size(17, 12, 1), Size(13, 50, 1), Size(31, benchmark + 4, 2), Size(20, list + 1, nodes)]
    + [Size(26, 27, 1), Size(42, 33, 1), Size(29, 37, 1)]
  }

  lemma PolicySum(takes: Sizer, n: Names, asOf: Json, policyMethod: Json, benchmarks: Json, instruments: Json,
                  activation: Json, availability: Json, noWeights: Json, benchmark: nat, list: nat, nodes: nat)
    requires PolicySized(n)
    requires takes(asOf, 12, 1, 2) && takes(policyMethod, 50, 1, 2) && takes(benchmarks, benchmark + 4, 2, 2)
    requires takes(instruments, list + 1, nodes, 2) && takes(activation, 27, 1, 2) && takes(availability, 33, 1, 2)
    requires takes(noWeights, 37, 1, 2)
    ensures SizedFields(takes,
                        PolicyFields(n, asOf, policyMethod, benchmarks, instruments, activation, availability,
                                     noWeights),
                        PolicySizes(benchmark, list, nodes), 2)
    ensures var z := PolicySizes(benchmark, list, nodes);
            SumBytes(z) == 370 + benchmark + list && SumNodes(z) == 7 + nodes
  {
    var first := [Size(17, 12, 1), Size(13, 50, 1), Size(31, benchmark + 4, 2), Size(20, list + 1, nodes)];
    var last := [Size(26, 27, 1), Size(42, 33, 1), Size(29, 37, 1)];
    var f1 := [ Field(n.asOf, asOf), Field(n.policyMethod, policyMethod), Field(n.benchmarks, benchmarks),
                Field(n.instruments, instruments) ];
    var f2 := [Field(n.activation, activation), Field(n.availability, availability), Field(n.noWeights, noWeights)];
    FourSized(takes, f1[0], f1[1], f1[2], f1[3], first[0], first[1], first[2], first[3], 2);
    ThreeSized(takes, f2[0], f2[1], f2[2], last[0], last[1], last[2], 2);
    SizedConcat(takes, f1, f2, first, last, 2);
    FourSizes(first[0], first[1], first[2], first[3], last);
    FewSizes(last[0], last[1], last[2]);
  }

  predicate PlainPolicy(v: PolicyView) {
    && IsDateText(v.asOf) && |v.benchmarks| == 1 && SourceText.IsTicker(v.benchmarks[0]) && v.instruments != []
    && forall i :: 0 <= i < |v.instruments| ==> SourceText.IsTicker(v.instruments[i].ticker)
  }

  lemma PolicyConstants(n: Names)
    requires PolicySized(n)
    ensures Takes(Word(n.methodValue), 50, 1, 2) && Takes(Word(n.activationValue), 27, 1, 2)
    ensures Takes(Word(n.availabilityValue), 33, 1, 2) && Takes(Word(n.noWeightsValue), 37, 1, 2)
  {
    WordMeasures(n.methodValue);
    WordMeasures(n.activationValue);
    WordMeasures(n.availabilityValue);
    WordMeasures(n.noWeightsValue);
  }

  lemma PolicyVariables(n: Names, v: PolicyView)
    requires Sized(n) && PlainPolicy(v)
    ensures Takes(AnyWord(v.asOf), 12, 1, 2) && Takes(Arr(Words(v.benchmarks)), |v.benchmarks[0]| + 4, 2, 2)
    ensures Takes(Arr(Instruments(n, v.instruments)), ItemBytes(Instruments(n, v.instruments), 0) + 1,
                  1 + 3 * |v.instruments|, 2)
  {
    PlainDates(v.asOf);
    AnyWordMeasures(v.asOf);
    assert v.benchmarks == [v.benchmarks[0]];
    BenchmarkMeasures(v.benchmarks[0]);
    InstrumentListMeasures(n, v.instruments);
  }

  /** The policy view, to the byte. */
  lemma PolicyLength(n: Names, v: PolicyView)
    requires Sized(n) && PlainPolicy(v)
    ensures Takes(PolicyJson(n, v), 371 + |v.benchmarks[0]| + ItemBytes(Instruments(n, v.instruments), 0),
                  9 + 3 * |v.instruments|, 3)
  {
    PolicyConstants(n);
    PolicyVariables(n, v);
    var list, nodes := ItemBytes(Instruments(n, v.instruments), 0), 1 + 3 * |v.instruments|;
    PolicySum(Takes, n, AnyWord(v.asOf), Word(n.methodValue), Arr(Words(v.benchmarks)),
              Arr(Instruments(n, v.instruments)),
              Word(n.activationValue), Word(n.availabilityValue), Word(n.noWeightsValue), |v.benchmarks[0]|, list,
              nodes);
    ObjectTakes(PolicyFields(n, AnyWord(v.asOf), Word(n.methodValue), Arr(Words(v.benchmarks)),
                             Arr(Instruments(n, v.instruments)),
                             Word(n.activationValue), Word(n.availabilityValue), Word(n.noWeightsValue)),
                PolicySizes(|v.benchmarks[0]|, list, nodes), 2);
  }

  const COVERAGE_SIZES: seq<Size> :=
    [Size(8, 28, 1), Size(4, 27, 1), Size(15, 27, 1), Size(10, 28, 1)]
    + ([Size(8, 28, 1), Size(13, 27, 1), Size(12, 27, 1), Size(7, 27, 1)] + [Size(17, 27, 1), Size(21, 27, 1)])

  lemma CoverageSum(takes: Sizer, n: Names, unstructured: Json, unavailable: Json)
    requires CoverageSized(n) && takes(unstructured, 28, 1, 0) && takes(unavailable, 27, 1, 0)
    ensures SizedFields(takes, CoverageFields(n, unstructured, unavailable), COVERAGE_SIZES, 0)
    ensures SumBytes(COVERAGE_SIZES) == 428 && SumNodes(COVERAGE_SIZES) == 10
  {
    var first := [Size(8, 28, 1), Size(4, 27, 1), Size(15, 27, 1), Size(10, 28, 1)];
    var second := [Size(8, 28, 1), Size(13, 27, 1), Size(12, 27, 1), Size(7, 27, 1)];
    var last := [Size(17, 27, 1), Size(21, 27, 1)];
    var f1 := [ Field(n.holdings, unstructured), Field(n.cash, unavailable), Field(n.deployableCash, unavailable),
                Field(n.openSells, unstructured) ];
    var f2 := [ Field(n.taxLots, unstructured), Field(n.holdingDates, unavailable), Field(n.gainsLosses, unavailable),
                Field(n.weights, unavailable) ];
    var f3 := [Field(n.navConcentration, unavailable), Field(n.lookThrough, unavailable)];
    FourSized(takes, f1[0], f1[1], f1[2], f1[3], first[0], first[1], first[2], first[3], 0);
    FourSized(takes, f2[0], f2[1], f2[2], f2[3], second[0], second[1], second[2], second[3], 0);
    ThreeSized(takes, f3[0], f3[1], f3[1], last[0], last[1], last[1], 0);
    SizedConcat(takes, f2, f3, second, last, 0);
    SizedConcat(takes, f1, f2 + f3, first, second + last, 0);
    CoverageTotals();
  }

  lemma CoverageTotals()
    ensures SumBytes(COVERAGE_SIZES) == 428 && SumNodes(COVERAGE_SIZES) == 10
  {
    var last := [Size(17, 27, 1), Size(21, 27, 1)];
    FourSizes(Size(8, 28, 1), Size(4, 27, 1), Size(15, 27, 1), Size(10, 28, 1),
              [Size(8, 28, 1), Size(13, 27, 1), Size(12, 27, 1), Size(7, 27, 1)] + last);
    FourSizes(Size(8, 28, 1), Size(13, 27, 1), Size(12, 27, 1), Size(7, 27, 1), last);
    FewSizes(last[0], last[1], last[1]);
  }

  lemma CoverageLength(n: Names)
    requires Sized(n)
    ensures Takes(CoverageJson(n), 429, 11, 1)
  {
    WordMeasures(n.unstructured);
    WordMeasures(n.unavailableValue);
    CoverageSum(Takes, n, Word(n.unstructured), Word(n.unavailableValue));
    ObjectTakes(CoverageFields(n, Word(n.unstructured), Word(n.unavailableValue)), COVERAGE_SIZES, 0);
  }

  function DateLength(date: Option<string>): nat {
    if date.None? then 4 else 12
  }

  lemma DateMeasures(date: Option<string>)
    requires date.Some? ==> IsDateText(date.value)
    ensures Takes(DateJson(date), DateLength(date), 1, 2)
  {
    if date.Some? {
      PlainDates(date.value);
      AnyWordMeasures(date.value);
    } else {
      EncodeAscii(Ascii("null"));
    }
  }

  function PortfolioSizes(presence: nat, date: nat, status: nat, list: nat, nodes: nat): seq<Size> {
    [Size(15, presence, 1), Size(21, date, 1), Size(15, status, 1), Size(21, list, nodes)] + [Size(22, 429, 11)]
  }

  lemma PortfolioSum(takes: Sizer, n: Names, presence: Json, date: Json, openStatus: Json, observations: Json,
                     coverage: Json, presenceBytes: nat, dateBytes: nat, statusBytes: nat, list: nat, nodes: nat)
    requires PortfolioSized(n)
    requires takes(presence, presenceBytes, 1, 2) && takes(date, dateBytes, 1, 2)
             && takes(openStatus, statusBytes, 1, 2)
    requires takes(observations, list, nodes, 2) && takes(coverage, 429, 11, 2)
    ensures SizedFields(takes, PortfolioFields(n, presence, date, openStatus, observations, coverage),
                        PortfolioSizes(presenceBytes, dateBytes, statusBytes, list, nodes), 2)
    ensures var z := PortfolioSizes(presenceBytes, dateBytes, statusBytes, list, nodes);
            SumBytes(z) == 543 + presenceBytes + dateBytes + statusBytes + list && SumNodes(z) == 14 + nodes
  {
    var first := [Size(15, presenceBytes, 1), Size(21, dateBytes, 1), Size(15, statusBytes, 1), Size(21, list, nodes)];
    var last := Size(22, 429, 11);
    var f1 := [ Field(n.presence, presence), Field(n.sourceDate, date), Field(n.openStatus, openStatus),
                Field(n.observations, observations) ];
    var f2 := Field(n.coverage, coverage);
    FourSized(takes, f1[0], f1[1], f1[2], f1[3], first[0], first[1], first[2], first[3], 2);
    ThreeSized(takes, f2, f2, f2, last, last, last, 2);
    SizedConcat(takes, f1, [f2], first, [last], 2);
    FourSizes(first[0], first[1], first[2], first[3], [last]);
    FewSizes(last, last, last);
  }

  predicate PlainPortfolio(v: PortfolioView) {
    && v.PresentView? && (v.sourceDate.Some? ==> IsDateText(v.sourceDate.value))
    && forall i :: 0 <= i < |v.observations| ==> SourceText.IsTicker(v.observations[i].ticker)
  }

  lemma PortfolioVariables(n: Names, v: PortfolioView)
    requires Sized(n) && PlainPortfolio(v)
    ensures Takes(Word(PresenceName(v.presence)), |PresenceName(v.presence)| + 2, 1, 2)
    ensures Takes(Word(OpenStatusName(v.openStatus)), |OpenStatusName(v.openStatus)| + 2, 1, 2)
    ensures Takes(DateJson(v.sourceDate), DateLength(v.sourceDate), 1, 2)
    ensures Takes(Arr(Observed(n, v.observations)), ObservedLength(n, v.observations), 1 + 3 * |v.observations|, 2)
  {
    WordMeasures(PresenceName(v.presence));
    WordMeasures(OpenStatusName(v.openStatus));
    DateMeasures(v.sourceDate);
    ObservationListMeasures(n, v.observations);
  }

  /** The portfolio view that is present, to the byte. */
  lemma PortfolioLength(n: Names, v: PortfolioView)
    requires Sized(n) && PlainPortfolio(v)
    ensures Takes(PortfolioJson(n, v),
                  548 + |PresenceName(v.presence)| + DateLength(v.sourceDate) + |OpenStatusName(v.openStatus)|
                      + ObservedLength(n, v.observations),
                  16 + 3 * |v.observations|, 3)
  {
    PortfolioVariables(n, v);
    CoverageLength(n);
    var presence, date, status := |PresenceName(v.presence)| + 2, DateLength(v.sourceDate),
                                  |OpenStatusName(v.openStatus)| + 2;
    var list, nodes := ObservedLength(n, v.observations), 1 + 3 * |v.observations|;
    PortfolioSum(Takes, n, Word(PresenceName(v.presence)), DateJson(v.sourceDate), Word(OpenStatusName(v.openStatus)),
                 Arr(Observed(n, v.observations)), CoverageJson(n), presence, date, status, list, nodes);
    ObjectTakes(PortfolioFields(n, Word(PresenceName(v.presence)), DateJson(v.sourceDate),
                                Word(OpenStatusName(v.openStatus)), Arr(Observed(n, v.observations)), CoverageJson(n)),
                PortfolioSizes(presence, date, status, list, nodes), 2);
  }

  lemma PresenceSum(n: Names, presence: Json)
    requires PortfolioSized(n) && Takes(presence, 14, 1, 0)
    ensures Takes(Object([Field(n.presence, presence)]), 34, 2, 3)
  {
    var f, z := [Field(n.presence, presence)], [Size(15, 14, 1)];
    assert SizedField(Takes, f[0], z[0], 0);
    ObjectTakes(f, z, 0);
    FewSizes(z[0], z[0], z[0]);
  }

  lemma NoPortfolioLength(n: Names)
    requires Sized(n)
    ensures Takes(PortfolioJson(n, NotSuppliedView), 34, 2, 3)
  {
    WordMeasures(PresenceName(NotSupplied));
    PresenceSum(n, Word(PresenceName(NotSupplied)));
  }

  predicate ValidHeader(h: Header, padsYears: bool) {
    PreparedHandoff.IsCanonicalTimestamp(h.timestamp, padsYears) && Identity.IsSha256(h.bundle)
    && Identity.IsSha256(h.identity)
  }

  lemma HeaderMeasures(h: Header, padsYears: bool)
    requires ValidHeader(h, padsYears)
    ensures Takes(Str(h.timestamp), 29, 1, 3) && Takes(Str(h.bundle), 66, 1, 3) && Takes(Str(h.identity), 66, 1, 3)
  {
    TextLength(h.timestamp);
    TextLength(h.bundle);
    TextLength(h.identity);
  }

  lemma ConstantMeasures(n: Names)
    requires TopSized(n)
    ensures Takes(Word(n.schemaVersionValue), 38, 1, 3) && Takes(Word(n.artifactKindValue), 35, 1, 3)
    ensures Takes(Bool(true), 4, 1, 3) && Takes(Word(n.noAuthority), 6, 1, 3)
            && Takes(Word(n.completenessValue), 28, 1, 3)
  {
    WordMeasures(n.schemaVersionValue);
    WordMeasures(n.artifactKindValue);
    WordMeasures(n.noAuthority);
    WordMeasures(n.completenessValue);
    EncodeAscii(Ascii("true"));
  }

  function ViewSizes(kind: nat, policy: nat, portfolio: nat, limitations: nat, a: nat, b: nat, c: nat): seq<Size> {
    [Size(14, 38, 1), Size(13, kind, 1), Size(11, 4, 1), Size(16, 6, 1)]
    + ([Size(24, 29, 1), Size(31, 66, 1), Size(11, policy, a), Size(14, portfolio, b)]
       + [Size(22, limitations, c), Size(24, 28, 1), Size(45, 66, 1)])
  }

  lemma ViewSum(takes: Sizer, n: Names, version: Json, kind: Json, reportOnly: Json, authority: Json, timestamp: Json,
                bundle: Json, policy: Json, portfolio: Json, limitations: Json, completeness: Json, identity: Json,
                policyBytes: nat, portfolioBytes: nat, limitationBytes: nat, a: nat, b: nat, c: nat)
    requires TopSized(n)
    requires takes(version, 38, 1, 3) && takes(kind, 35, 1, 3) && takes(reportOnly, 4, 1, 3)
    requires takes(authority, 6, 1, 3) && takes(timestamp, 29, 1, 3) && takes(bundle, 66, 1, 3)
    requires takes(policy, policyBytes, a, 3) && takes(portfolio, portfolioBytes, b, 3)
             && takes(limitations, limitationBytes, c, 3)
    requires takes(completeness, 28, 1, 3) && takes(identity, 66, 1, 3)
    ensures SizedFields(takes, ViewFields(n, version, kind, reportOnly, authority, timestamp, bundle, policy, portfolio,
                                          limitations, completeness, identity),
                        ViewSizes(35, policyBytes, portfolioBytes, limitationBytes, a, b, c), 3)
    ensures var z := ViewSizes(35, policyBytes, portfolioBytes, limitationBytes, a, b, c);
            SumBytes(z) == 541 + policyBytes + portfolioBytes + limitationBytes && SumNodes(z) == 8 + a + b + c
  {
    var first := [Size(14, 38, 1), Size(13, 35, 1), Size(11, 4, 1), Size(16, 6, 1)];
    var second := [Size(24, 29, 1), Size(31, 66, 1), Size(11, policyBytes, a), Size(14, portfolioBytes, b)];
    var last := [Size(22, limitationBytes, c), Size(24, 28, 1), Size(45, 66, 1)];
    var f1 := [ Field(n.schemaVersion, version), Field(n.artifactKind, kind), Field(n.reportOnly, reportOnly),
                Field(n.authorityEffect, authority) ];
    var f2 := [ Field(n.evaluationTimestamp, timestamp), Field(n.bundleIdentity, bundle), Field(n.policyView, policy),
                Field(n.portfolioView, portfolio) ];
    var f3 := [Field(n.limitations, limitations), Field(n.completeness, completeness), Field(n.viewIdentity, identity)];
    FourSized(takes, f1[0], f1[1], f1[2], f1[3], first[0], first[1], first[2], first[3], 3);
    FourSized(takes, f2[0], f2[1], f2[2], f2[3], second[0], second[1], second[2], second[3], 3);
    ThreeSized(takes, f3[0], f3[1], f3[2], last[0], last[1], last[2], 3);
    SizedConcat(takes, f2, f3, second, last, 3);
    SizedConcat(takes, f1, f2 + f3, first, second + last, 3);
    ViewTotals(35, policyBytes, portfolioBytes, limitationBytes, a, b, c);
  }

  lemma ViewTotals(kind: nat, policy: nat, portfolio: nat, limitations: nat, a: nat, b: nat, c: nat)
    ensures var z := ViewSizes(kind, policy, portfolio, limitations, a, b, c);
            SumBytes(z) == 506 + kind + policy + portfolio + limitations && SumNodes(z) == 8 + a + b + c
  {
    var second := [Size(24, 29, 1), Size(31, 66, 1), Size(11, policy, a), Size(14, portfolio, b)];
    var last := [Size(22, limitations, c), Size(24, 28, 1), Size(45, 66, 1)];
    FourSizes(Size(14, 38, 1), Size(13, kind, 1), Size(11, 4, 1), Size(16, 6, 1), second + last);
    FourSizes(second[0], second[1], second[2], second[3], last);
    FewSizes(last[0], last[1], last[2]);
  }

  /** The whole view, to the byte, from its three parts. */
  lemma ViewLength(n: Names, v: View, h: Header, padsYears: bool,
                   policyBytes: nat, portfolioBytes: nat, limitationBytes: nat, a: nat, b: nat, c: nat)
    requires Sized(n) && ValidHeader(h, padsYears)
    requires Takes(PolicyJson(n, v.policy), policyBytes, a, 3)
             && Takes(PortfolioJson(n, v.portfolio), portfolioBytes, b, 3)
    requires Takes(Arr(Limitations(n, v.limitations)), limitationBytes, c, 3)
    ensures Takes(ViewJson(n, v, h), 542 + policyBytes + portfolioBytes + limitationBytes, 9 + a + b + c, 4)
  {
    HeaderMeasures(h, padsYears);
    ConstantMeasures(n);
    ViewSum(Takes, n, Word(n.schemaVersionValue), Word(n.artifactKindValue), Bool(true), Word(n.noAuthority),
            Str(h.timestamp), Str(h.bundle), PolicyJson(n, v.policy), PortfolioJson(n, v.portfolio),
            Arr(Limitations(n, v.limitations)), Word(n.completenessValue), Str(h.identity),
            policyBytes, portfolioBytes, limitationBytes, a, b, c);
    ObjectTakes(ViewFields(n, Word(n.schemaVersionValue), Word(n.artifactKindValue), Bool(true), Word(n.noAuthority),
            Str(h.timestamp), Str(h.bundle), PolicyJson(n, v.policy), PortfolioJson(n, v.portfolio),
            Arr(Limitations(n, v.limitations)), Word(n.completenessValue), Str(h.identity)),
                ViewSizes(35, policyBytes, portfolioBytes, limitationBytes, a, b, c), 3);
  }

  // ----- no valid view is too large -----

  lemma PolicyAtMost(n: Names, v: PolicyView, padsYears: bool)
    requires Sized(n) && ValidPolicyView(v, padsYears)
    ensures PlainPolicy(v) && |v.instruments| <= 256
    ensures 371 + |v.benchmarks[0]| + ItemBytes(Instruments(n, v.instruments), 0) <= 16_750
  {
    InstrumentsAtMost(n, v.instruments);
    assert HasRole(v.instruments, 0, Universe.Core) && HasRole(v.instruments, 0, Universe.Satellite);
  }

  lemma PortfolioAtMost(n: Names, v: PortfolioView, padsYears: bool)
    requires Sized(n) && ValidPortfolioView(v, padsYears) && v.PresentView?
    ensures PlainPortfolio(v) && |v.observations| <= 256
    ensures 548 + |PresenceName(v.presence)| + DateLength(v.sourceDate) + |OpenStatusName(v.openStatus)|
              + ObservedLength(n, v.observations) <= 23_903
  {
    ObservationsAtMost(n, v.observations);
  }

  lemma ValidListed(v: View, padsYears: bool)
    requires ValidView(v, padsYears)
    ensures Listed(v.limitations) && 1 <= |v.limitations| <= 14
  {
    forall i | 0 <= i < |v.limitations| ensures Tickers(v.limitations[i].tickers) {
      assert ValidLimitation(v.limitations[i], VisibleTickers(v.policy, v.portfolio));
      forall j | 0 <= j < |v.limitations[i].tickers| ensures SourceText.IsTicker(v.limitations[i].tickers[j]) {
        assert v.limitations[i].tickers[j] in v.limitations[i].tickers;
      }
    }
  }

  /** What the portfolio part takes at most, present or not. */
  lemma PortfolioTakes(n: Names, v: PortfolioView, padsYears: bool) returns (bytes: nat)
    requires Sized(n) && ValidPortfolioView(v, padsYears)
    ensures bytes <= 23_903 && Takes(PortfolioJson(n, v), bytes, 784, 3)
  {
    if v.PresentView? {
      PortfolioAtMost(n, v, padsYears);
      PortfolioLength(n, v);
      bytes := Length(PortfolioJson(n, v));
    } else {
      NoPortfolioLength(n);
      bytes := 34;
    }
  }

  lemma PolicyTakes(n: Names, v: PolicyView, padsYears: bool) returns (bytes: nat)
    requires Sized(n) && ValidPolicyView(v, padsYears)
    ensures bytes <= 16_750 && Takes(PolicyJson(n, v), bytes, 777, 3)
  {
    PolicyAtMost(n, v, padsYears);
    PolicyLength(n, v);
    bytes := 371 + |v.benchmarks[0]| + ItemBytes(Instruments(n, v.instruments), 0);
  }

  /** The three parts together. */
  lemma ViewTakes(n: Names, v: View, h: Header, padsYears: bool) returns (bytes: nat)
    requires Sized(n) && ValidView(v, padsYears) && ValidHeader(h, padsYears)
    ensures bytes <= 47_584 && Takes(ViewJson(n, v, h), bytes, 5211, 4)
  {
    var policy := PolicyTakes(n, v.policy, padsYears);
    var portfolio := PortfolioTakes(n, v.portfolio, padsYears);
    ValidListed(v, padsYears);
    LimitationListMeasures(n, v.limitations);
    var limitations := 1 + ItemBytes(Limitations(n, v.limitations), 0);
    ViewLength(n, v, h, padsYears, policy, portfolio, limitations, 777, 784, 3641);
    bytes := 542 + policy + portfolio + limitations;
  }

  /** Every view that holds to the rest of its contract takes at most 47,584 bytes. */
  lemma ViewFits(n: Names, v: View, h: Header, padsYears: bool)
    requires Sized(n) && ValidView(v, padsYears) && ValidHeader(h, padsYears)
    ensures CanonicalJsonBytes(ViewJson(n, v, h), MAXIMUM_VIEW_BYTES).Ok?
    ensures Length(ViewJson(n, v, h)) <= MAXIMUM_VIEW_BYTES
  {
    var bytes := ViewTakes(n, v, h, padsYears);
    PlainCanonical(ViewJson(n, v, h), MAXIMUM_VIEW_BYTES);
  }

  /** The contract: the header, the view, and that the whole prints within the bound. */
  predicate ContractAccepts(v: View, h: Header, padsYears: bool) {
    ValidHeader(h, padsYears) && ValidView(v, padsYears)
    && CanonicalJsonBytes(ViewJson(VIEW_NAMES, v, h), MAXIMUM_VIEW_BYTES).Ok?
  }

  /** So the bound never decides. */
  lemma BoundNeverRejects(v: View, h: Header, padsYears: bool)
    ensures ContractAccepts(v, h, padsYears) <==> ValidHeader(h, padsYears) && ValidView(v, padsYears)
  {
    if ValidHeader(h, padsYears) && ValidView(v, padsYears) {
      ViewNamesSized();
      ViewFits(VIEW_NAMES, v, h, padsYears);
    }
  }

  /** A view derived from sound projections is accepted, with a valid header, exactly when its dates reformat. */
  lemma DerivedViewAccepted(p: Policy, portfolio: Option<Portfolio>, h: Header, padsYears: bool)
    requires ComposedView.SoundParts(p, portfolio)
    ensures DeriveView(p, ComposedView.PresenceOf(portfolio), portfolio).Ok?
    ensures ContractAccepts(DeriveView(p, ComposedView.PresenceOf(portfolio), portfolio).value, h, padsYears)
       <==> ValidHeader(h, padsYears) && ComposedView.DatesReformat(p, portfolio, padsYears)
  {
    ComposedView.ViewDerives(p, portfolio, padsYears);
    BoundNeverRejects(DeriveView(p, ComposedView.PresenceOf(portfolio), portfolio).value, h, padsYears);
  }
}
