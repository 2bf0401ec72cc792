/**
 Sums and sums of products over scaled integers (`_decimal_units`,
 `_sum_canonical_nonnegative_decimals`, `_reconstruct_summary_notional` and
 `_render_nonnegative_units` in mmi/portfolio_projection.py).
 */
module DecimalSums {
  import opened Outcomes
  import opened Digits
  import opened Amounts
  import opened Decimals

  // ----- exact totals -----

  function MaxScale(amounts: seq<Amount>): (s: nat)
    ensures forall i :: 0 <= i < |amounts| ==> amounts[i].scale <= s
  {
    if amounts == [] then 0
    else
      var rest := MaxScale(amounts[1..]);
      assert forall i :: 0 < i < |amounts| ==> amounts[i] == amounts[1..][i - 1];
      if amounts[0].scale < rest then rest else amounts[0].scale
  }

  predicate WithinScale(amounts: seq<Amount>, scale: nat) {
    forall i :: 0 <= i < |amounts| ==> amounts[i].scale <= scale
  }

  /** The sum in units of one common scale. */
  function SumAt(amounts: seq<Amount>, scale: nat): int
    requires WithinScale(amounts, scale)
  {
    if amounts == [] then 0 else At(amounts[0], scale) + SumAt(amounts[1..], scale)
  }

  function Total(amounts: seq<Amount>): Amount {
    Amount(SumAt(amounts, MaxScale(amounts)), MaxScale(amounts))
  }

  function Product(a: Amount, b: Amount): Amount {
    Amount(a.units * b.units, a.scale + b.scale)
  }

  lemma {:induction false} SumAtFiner(amounts: seq<Amount>, scale: nat, finer: nat)
    requires WithinScale(amounts, scale) && scale <= finer
    ensures SumAt(amounts, finer) == SumAt(amounts, scale) * Pow10(finer - scale)
  {
    if amounts != [] {
      SumAtFiner(amounts[1..], scale, finer);
      AtFiner(amounts[0], scale, finer);
      Distribute(At(amounts[0], scale), SumAt(amounts[1..], scale), Pow10(finer - scale));
    }
  }

  lemma Distribute(x: int, y: int, p: int)
    ensures (x + y) * p == x * p + y * p
  {
  }

  /** At whatever common scale the sum is taken, it is the same number. */
  lemma TotalAtAnyScale(amounts: seq<Amount>, scale: nat)
    requires WithinScale(amounts, scale)
    ensures Same(Total(amounts), Amount(SumAt(amounts, scale), scale))
  {
    var m := MaxScale(amounts);
    assert Pow10(0) == 1;
    if m <= scale {
      SumAtFiner(amounts, m, scale);
      SameAt(Total(amounts), Amount(SumAt(amounts, scale), scale), scale);
    } else {
      SumAtFiner(amounts, scale, m);
      SameAt(Total(amounts), Amount(SumAt(amounts, scale), scale), m);
    }
  }

  // ----- equal summands, equal sums -----

  predicate SameAll(a: seq<Amount>, b: seq<Amount>) {
    |a| == |b| && forall i :: 0 <= i < |a| ==> Same(a[i], b[i])
  }

  lemma {:induction false} SumAtSame(a: seq<Amount>, b: seq<Amount>, scale: nat)
    requires SameAll(a, b) && WithinScale(a, scale) && WithinScale(b, scale)
    ensures SumAt(a, scale) == SumAt(b, scale)
  {
    if a != [] {
      SameAt(a[0], b[0], scale);
      SumAtSame(a[1..], b[1..], scale);
    }
  }

  lemma SameTransitive(a: Amount, b: Amount, c: Amount)
    requires Same(a, b) && Same(b, c)
    ensures Same(a, c)
  {
    SameIffReduced(a, b);
    SameIffReduced(b, c);
    SameIffReduced(a, c);
  }

  lemma TotalsSame(a: seq<Amount>, b: seq<Amount>)
    requires SameAll(a, b)
    ensures Same(Total(a), Total(b))
  {
    var scale := MaxScale(a) + MaxScale(b);
    SumAtSame(a, b, scale);
    TotalAtAnyScale(a, scale);
    TotalAtAnyScale(b, scale);
    SameTransitive(Total(a), Amount(SumAt(b, scale), scale), Total(b));
  }

  lemma ProductsSame(a: Amount, b: Amount, c: Amount, d: Amount)
    requires Same(a, c) && Same(b, d)
    ensures Same(Product(a, b), Product(c, d))
  {
    Pow10Sum(a.scale, b.scale);
    Pow10Sum(c.scale, d.scale);
    CrossMultiply(a.units, Pow10(c.scale), b.units, Pow10(d.scale));
    CrossMultiply(c.units, Pow10(a.scale), d.units, Pow10(b.scale));
  }

  lemma CrossMultiply(x: int, p: int, y: int, q: int)
    ensures (x * p) * (y * q) == (x * y) * (p * q)
  {
    calc {
      (x * p) * (y * q);
      x * (p * (y * q));
      { assert p * (y * q) == y * (p * q) by { assert p * (y * q) == (p * y) * q; assert (y * p) * q == y * (p * q); } }
      x * (y * (p * q));
      (x * y) * (p * q);
    }
  }

  // ----- order does not matter -----

  lemma {:induction false} SumAtRemoved(amounts: seq<Amount>, i: nat, scale: nat)
    requires WithinScale(amounts, scale) && i < |amounts|
    ensures WithinScale(amounts[..i] + amounts[i + 1..], scale)
    ensures SumAt(amounts, scale) == At(amounts[i], scale) + SumAt(amounts[..i] + amounts[i + 1..], scale)
  {
    var rest := amounts[..i] + amounts[i + 1..];
    if i == 0 {
      assert rest == amounts[1..];
    } else {
      SumAtRemoved(amounts[1..], i - 1, scale);
      assert rest[1..] == amounts[1..][..i - 1] + amounts[1..][i..];
      assert amounts[1..][i..] == amounts[i + 1..];
    }
  }

  lemma RemovedMultiset(a: seq<Amount>, i: nat)
    requires i < |a|
    ensures multiset(a[..i] + a[i + 1..]) == multiset(a) - multiset{a[i]}
  {
    assert a == a[..i] + ([a[i]] + a[i + 1..]);
  }

  lemma PermutedHead(a: seq<Amount>, b: seq<Amount>) returns (i: nat)
    requires a != [] && multiset(a) == multiset(b)
    ensures i < |b| && b[i] == a[0] && multiset(a[1..]) == multiset(b[..i] + b[i + 1..])
  {
    assert a[0] in multiset(a);
    assert a[0] in b;
    i :| 0 <= i < |b| && b[i] == a[0];
    RemovedMultiset(b, i);
    assert a == [a[0]] + a[1..];
  }

  lemma {:induction false} SumAtPermuted(a: seq<Amount>, b: seq<Amount>, scale: nat)
    requires multiset(a) == multiset(b) && WithinScale(a, scale) && WithinScale(b, scale)
    ensures SumAt(a, scale) == SumAt(b, scale)
    decreases |a|
  {
    if a == [] {
      assert |multiset(a)| == |b|;
    } else {
      var i := PermutedHead(a, b);
      SumAtRemoved(b, i, scale);
      SumAtPermuted(a[1..], b[..i] + b[i + 1..], scale);
    }
  }

  lemma TotalsPermuted(a: seq<Amount>, b: seq<Amount>)
    requires multiset(a) == multiset(b)
    ensures Same(Total(a), Total(b))
  {
    var scale := MaxScale(a) + MaxScale(b);
    SumAtPermuted(a, b, scale);
    TotalAtAnyScale(a, scale);
    TotalAtAnyScale(b, scale);
    SameTransitive(Total(a), Amount(SumAt(b, scale), scale), Total(b));
  }

  // ----- rendering units -----

  /** `str(units)`, padded on the left to more than scale digits. */
  function PaddedDigits(units: nat, scale: nat): (ds: seq<Digit>)
    ensures |ds| > scale
  {
    var ds := Numeral(units);
    if |ds| <= scale then Zeros(scale + 1 - |ds|) + ds else ds
  }

  function RawUnits(units: nat, scale: nat): string {
    var ds := PaddedDigits(units, scale);
    Assemble(false, ds[..|ds| - scale], ds[|ds| - scale..])
  }

  function RenderUnits(units: nat, scale: nat): Option<string> {
    match Normalized(TextInput(RawUnits(units, scale)))
    case Err(_) => None
    case Ok(t) => Some(t)
  }

  function Rendered(r: Result<string, DecimalError>): Option<string> {
    match r case Err(_) => None case Ok(t) => Some(t)
  }

  lemma PaddedNumber(units: nat, scale: nat)
    ensures Number(PaddedDigits(units, scale)) == units
  {
    var ds := Numeral(units);
    NumberOfNumeral(units);
    if |ds| <= scale {
      NumberConcat(Zeros(scale + 1 - |ds|), ds);
      NumberOfZeros(scale + 1 - |ds|);
    }
  }

  lemma PaddedLeads(units: nat, scale: nat)
    ensures NoLeadingZero(PaddedDigits(units, scale)[..|PaddedDigits(units, scale)| - scale])
  {
    NumeralShape(units);
    var ds := PaddedDigits(units, scale);
    var integral := ds[..|ds| - scale];
    assert integral[0] == ds[0];
    if |Numeral(units)| <= scale {
      assert |integral| == 1;
    } else {
      assert integral == [integral[0]] || |integral| > 1;
    }
  }

  lemma RawAmount(units: nat, scale: nat)
    ensures IsDecimalText(RawUnits(units, scale)) && TextAmount(RawUnits(units, scale)) == Amount(units, scale)
  {
    PaddedNumber(units, scale);
    PaddedLeads(units, scale);
    SplitAmount(PaddedDigits(units, scale), scale);
  }

  lemma SplitAmount(ds: seq<Digit>, scale: nat)
    requires |ds| > scale && NoLeadingZero(ds[..|ds| - scale])
    ensures var s := Assemble(false, ds[..|ds| - scale], ds[|ds| - scale..]);
            IsDecimalText(s) && TextAmount(s) == Amount(Number(ds), scale)
  {
    AssembledAmount(false, ds[..|ds| - scale], ds[|ds| - scale..]);
    assert ds[..|ds| - scale] + ds[|ds| - scale..] == ds;
  }

  /** Rendering units at a scale is normalizing the amount they stand for. */
  lemma RenderUnitsExactly(units: nat, scale: nat)
    ensures RenderUnits(units, scale) == Rendered(NormalizedAmount(Amount(units, scale)))
  {
    RawAmount(units, scale);
  }

  // ----- sums of canonical texts -----

  /** Decimal text without a sign: what the strict parser admits and normalization keeps. */
  predicate IsUnsignedText(t: string) {
    IsDecimalText(t) && !Negative(t)
  }

  function DecimalUnits(t: string): (a: Amount)
    requires IsUnsignedText(t)
    ensures a == TextAmount(t) && a.units >= 0
  {
    Amount(Number(DigitValues(Integral(t) + Fraction(t))), |Fraction(t)|)
  }

  function AllUnits(values: seq<string>): (r: seq<Amount>)
    requires forall i :: 0 <= i < |values| ==> IsUnsignedText(values[i])
    ensures |r| == |values| && forall i :: 0 <= i < |values| ==> r[i] == DecimalUnits(values[i])
  {
    seq(|values|, i requires 0 <= i < |values| => DecimalUnits(values[i]))
  }

  lemma {:induction false} SumAtNonNegative(amounts: seq<Amount>, scale: nat)
    requires WithinScale(amounts, scale) && forall i :: 0 <= i < |amounts| ==> amounts[i].units >= 0
    ensures SumAt(amounts, scale) >= 0
  {
    if amounts != [] {
      SumAtNonNegative(amounts[1..], scale);
      assert amounts[0].units * Pow10(scale - amounts[0].scale) >= 0;
    }
  }

  /** The sum of a list of nonnegative amounts, as text. */
  function SumText(amounts: seq<Amount>): Option<string>
    requires forall i :: 0 <= i < |amounts| ==> amounts[i].units >= 0
  {
    if amounts == [] then Some("0")
    else
      SumAtNonNegative(amounts, MaxScale(amounts));
      RenderUnits(SumAt(amounts, MaxScale(amounts)), MaxScale(amounts))
  }

  function SumTexts(values: seq<string>): Option<string>
    requires forall i :: 0 <= i < |values| ==> IsUnsignedText(values[i])
  {
    SumText(AllUnits(values))
  }

  lemma EmptySum()
    ensures NormalizedAmount(Total([])) == Ok("0")
  {
    var d := Finite(false, [0], 0);
    ZeroNormalizes(d);
    assert Pow10(0) == 1;
    assert Number([0]) == 0 by { NumberOfZeros(1); assert Zeros(1) == [0]; }
  }

  /** The result denotes the exact sum, and there is none exactly when that sum has no admissible spelling. */
  lemma SumExactly(amounts: seq<Amount>)
    requires forall i :: 0 <= i < |amounts| ==> amounts[i].units >= 0
    ensures SumText(amounts) == Rendered(NormalizedAmount(Total(amounts)))
    ensures SumText(amounts).Some? <==> Spellable(Total(amounts))
    ensures SumText(amounts).Some? ==>
              var t := SumText(amounts).value;
              && IsUnsignedText(t) && CanonicalText(t)
              && forall scale :: WithinScale(amounts, scale) ==>
                   Same(TextAmount(t), Amount(SumAt(amounts, scale), scale))
  {
    if amounts == [] {
      EmptySum();
    } else {
      SumAtNonNegative(amounts, MaxScale(amounts));
      RenderUnitsExactly(SumAt(amounts, MaxScale(amounts)), MaxScale(amounts));
    }
    AmountAccepted(Total(amounts));
    if SumText(amounts).Some? {
      var t := SumText(amounts).value;
      SumAtNonNegative(amounts, MaxScale(amounts));
      AmountText(Total(amounts));
      forall scale | WithinScale(amounts, scale) ensures Same(TextAmount(t), Amount(SumAt(amounts, scale), scale)) {
        TotalAtAnyScale(amounts, scale);
        SameTransitive(TextAmount(t), Total(amounts), Amount(SumAt(amounts, scale), scale));
      }
    }
  }

  lemma SumIsNormalized(amounts: seq<Amount>)
    requires forall i :: 0 <= i < |amounts| ==> amounts[i].units >= 0
    ensures SumText(amounts) == Rendered(NormalizedAmount(Total(amounts)))
  {
    SumExactly(amounts);
  }

  lemma AmountAccepted(a: Amount)
    ensures NormalizedAmount(a).Ok? <==> Spellable(a)
  {
    if Spellable(a) {
      var b :| Same(a, b) && WithinDigits(b);
      ReduceKeepsIntegral(b);
      SameIffReduced(a, b);
    }
    if WithinDigits(Reduce(a)) {
      SameReduce(a);
    }
  }

  lemma AmountText(a: Amount)
    requires a.units >= 0 && NormalizedAmount(a).Ok?
    ensures var t := NormalizedAmount(a).value; IsUnsignedText(t) && CanonicalText(t) && Same(TextAmount(t), a)
  {
    var r := Reduce(a);
    RenderedAmount(r);
    RenderedShape(r);
    SameReduce(a);
    ReducedNonNegative(a);
    SameIffReduced(r, a);
    SameReduce(r);
  }

  lemma {:induction false} ReducedNonNegative(a: Amount)
    requires a.units >= 0
    ensures Reduce(a).units >= 0
    decreases a.scale
  {
    if !Reduced(a) {
      ReducedNonNegative(Amount(a.units / 10, a.scale - 1));
    }
  }

  /** The sum does not depend on the order of what is summed, down to the text. */
  lemma SumOrderIndependent(a: seq<Amount>, b: seq<Amount>)
    requires forall i :: 0 <= i < |a| ==> a[i].units >= 0
    requires forall i :: 0 <= i < |b| ==> b[i].units >= 0
    requires multiset(a) == multiset(b)
    ensures SumText(a) == SumText(b)
  {
    SumIsNormalized(a);
    SumIsNormalized(b);
    TotalsPermuted(a, b);
    AmountsDecide(Total(a), Total(b));
  }

  /** Summing different spellings of the same amounts gives the same text. */
  lemma SumSpellingIndependent(a: seq<Amount>, b: seq<Amount>)
    requires forall i :: 0 <= i < |a| ==> a[i].units >= 0
    requires forall i :: 0 <= i < |b| ==> b[i].units >= 0
    requires SameAll(a, b)
    ensures SumText(a) == SumText(b)
  {
    SumIsNormalized(a);
    SumIsNormalized(b);
    TotalsSame(a, b);
    AmountsDecide(Total(a), Total(b));
  }

  lemma SameText(a: Amount, b: Amount)
    requires NormalizedAmount(b).Ok?
    ensures NormalizedAmount(a) == NormalizedAmount(b) <==> Same(a, b)
  {
    AmountsDecide(a, b);
    AmountsDecide(b, a);
  }

  /** Comparing the text of a sum with a normalized text decides exact equality. */
  lemma SumEqualsText(amounts: seq<Amount>, x: Input)
    requires forall i :: 0 <= i < |amounts| ==> amounts[i].units >= 0
    requires Normalized(x).Ok?
    ensures SumText(amounts) == Some(Normalized(x).value) <==> Same(Total(amounts), InputAmount(x).value)
  {
    SumIsNormalized(amounts);
    NormalizedIsByAmount(x);
    SameText(Total(amounts), InputAmount(x).value);
  }
}
