/** Bounded decimal normalization (`normalize_decimal_string` in mmi/canonical.py). */
module Decimals {
  import opened Outcomes
  import opened Digits
  import opened Amounts
  import SourceText

  const MAXIMUM_INTEGRAL_DIGITS: nat := 48
  const MAXIMUM_FRACTIONAL_DIGITS: nat := 24
  const MAXIMUM_TOTAL_DIGITS: nat := 56
  const MAXIMUM_RENDERED_CHARACTERS: nat := 64

  datatype DecimalError =
    | TypeInvalid
    | TextInvalid
    | NonFiniteProhibited
    | DigitLimitExceeded
    | NormalizationFailed

  /** Python's `Decimal.as_tuple()`; the digits of a finite one carry no leading zeros. */
  datatype Decimal = Finite(negative: bool, coefficient: seq<Digit>, exponent: int) | NonFinite

  datatype Input =
    | BoolInput(b: bool)
    | IntInput(n: int)
    | DecimalInput(d: Decimal)
    | TextInput(s: string)
    | OtherInput

  predicate ValidDecimal(d: Decimal) {
    d.Finite? ==> NoLeadingZero(d.coefficient)
  }

  // ----- decimal text -----

  function DigitValue(c: char): Digit
    requires SourceText.IsAsciiDigit(c)
  {
    c as int - '0' as int
  }

  function DigitChar(d: Digit): (c: char)
    ensures SourceText.IsAsciiDigit(c) && DigitValue(c) == d
  {
    '0' + d as char
  }

  predicate AllDigits(s: string) {
    forall i :: 0 <= i < |s| ==> SourceText.IsAsciiDigit(s[i])
  }

  function DigitValues(s: string): (ds: seq<Digit>)
    requires AllDigits(s)
    ensures |ds| == |s|
    ensures forall i :: 0 <= i < |s| ==> ds[i] == DigitValue(s[i])
  {
    seq(|s|, i requires 0 <= i < |s| => DigitValue(s[i]))
  }

  function DigitString(ds: seq<Digit>): (s: string)
    ensures |s| == |ds| && AllDigits(s)
    ensures forall i :: 0 <= i < |ds| ==> s[i] == DigitChar(ds[i])
  {
    seq(|ds|, i requires 0 <= i < |ds| => DigitChar(ds[i]))
  }

  function Unsigned(s: string): string {
    if s != "" && s[0] == '-' then s[1..] else s
  }

  function Integral(s: string): string {
    var u := Unsigned(s); u[..SourceText.Find(u, '.')]
  }

  function Fraction(s: string): string {
    var u := Unsigned(s); var p := SourceText.Find(u, '.');
    if p < |u| then u[p + 1..] else ""
  }

  predicate HasPoint(s: string) {
    SourceText.Find(Unsigned(s), '.') < |Unsigned(s)|
  }

  /** `-?(0|[1-9][0-9]*)(\.[0-9]+)?`, the whole text. */
  predicate IsDecimalText(s: string) {
    && AllDigits(Integral(s)) && AllDigits(Fraction(s))
    && Integral(s) != "" && (Integral(s)[0] != '0' || |Integral(s)| == 1)
    && (HasPoint(s) ==> Fraction(s) != "")
  }

  predicate Negative(s: string) {
    s != "" && s[0] == '-'
  }

  function TextAmount(s: string): Amount
    requires IsDecimalText(s)
  {
    Amount(Signed(Negative(s), Number(DigitValues(Integral(s) + Fraction(s)))), |Fraction(s)|)
  }

  /** The decimal a text denotes: its digits without leading zeros, scaled by its fraction. */
  function TextDecimal(s: string): (d: Decimal)
    requires IsDecimalText(s)
    ensures ValidDecimal(d)
  {
    var n := Number(DigitValues(Integral(s) + Fraction(s)));
    NumeralShape(n);
    Finite(Negative(s), Numeral(n), -|Fraction(s)|)
  }

  /** units times ten to the exponent. */
  function Scaled(units: int, exponent: int): Amount {
    if exponent >= 0 then Amount(units * Pow10(exponent), 0) else Amount(units, -exponent)
  }

  function DecimalAmount(d: Decimal): Amount
    requires d.Finite?
  {
    Scaled(Signed(d.negative, Number(d.coefficient)), d.exponent)
  }

  // ----- what normalization means -----

  function Abs(n: int): nat {
    if n < 0 then -n else n
  }

  /** The last k digits, zeros included. */
  function Padded(n: nat, k: nat): (ds: seq<Digit>)
    ensures |ds| == k
  {
    if k == 0 then [] else Padded(n / 10, k - 1) + [n % 10]
  }

  /** The number without its last k digits. */
  function Shift(n: nat, k: nat): nat {
    if k == 0 then n else Shift(n / 10, k - 1)
  }

  /** Digits before the point; a zero there is one digit. */
  function IntegralDigits(a: Amount): nat {
    |Numeral(Shift(Abs(a.units), a.scale))|
  }

  predicate DigitCountsPass(integral: nat, fraction: nat) {
    integral <= MAXIMUM_INTEGRAL_DIGITS && fraction <= MAXIMUM_FRACTIONAL_DIGITS
    && integral + fraction <= MAXIMUM_TOTAL_DIGITS
  }

  /** This spelling keeps within the digit bounds. */
  predicate WithinDigits(a: Amount) {
    DigitCountsPass(IntegralDigits(a), a.scale)
  }

  /** Sign, digits, and a point with digits after it if there are any. */
  function Assemble(negative: bool, integral: seq<Digit>, fraction: seq<Digit>): string {
    (if negative then "-" else "")
    + (DigitString(integral) + if fraction == [] then "" else "." + DigitString(fraction))
  }

  function Render(a: Amount): string {
    Assemble(a.units < 0, Numeral(Shift(Abs(a.units), a.scale)), Padded(Abs(a.units), a.scale))
  }

  function NormalizedAmount(a: Amount): Result<string, DecimalError> {
    if WithinDigits(Reduce(a)) then Ok(Render(Reduce(a))) else Err(DigitLimitExceeded)
  }

  function Normalized(x: Input): Result<string, DecimalError> {
    match x
    case BoolInput(_) => Err(TypeInvalid)
    case OtherInput => Err(TypeInvalid)
    case IntInput(n) => NormalizedAmount(Amount(n, 0))
    case DecimalInput(d) => if d.NonFinite? then Err(NonFiniteProhibited) else NormalizedAmount(DecimalAmount(d))
    case TextInput(s) => if IsDecimalText(s) then NormalizedAmount(TextAmount(s)) else Err(TextInvalid)
  }

  function InputAmount(x: Input): Option<Amount> {
    match x
    case IntInput(n) => Some(Amount(n, 0))
    case DecimalInput(d) => if d.Finite? then Some(DecimalAmount(d)) else None
    case TextInput(s) => if IsDecimalText(s) then Some(TextAmount(s)) else None
    case _ => None
  }

  // ----- what is rendered is read back -----

  lemma {:induction false} SplitNumber(n: nat, k: nat)
    ensures Number(Numeral(Shift(n, k)) + Padded(n, k)) == n
  {
    if k == 0 {
      NumberOfNumeral(n);
      assert Numeral(n) + [] == Numeral(n);
    } else {
      SplitNumber(n / 10, k - 1);
      NumberAppend(Numeral(Shift(n / 10, k - 1)) + Padded(n / 10, k - 1), n % 10);
      Regroup(Numeral(Shift(n, k)), Padded(n / 10, k - 1), n % 10);
    }
  }

  lemma NumberAppend(ds: seq<Digit>, d: Digit)
    ensures Number(ds + [d]) == 10 * Number(ds) + d
  {
    assert (ds + [d])[..|ds|] == ds;
  }

  lemma Regroup(a: seq<Digit>, b: seq<Digit>, d: Digit)
    ensures a + (b + [d]) == (a + b) + [d]
  {
  }

  lemma ValuesOfString(a: seq<Digit>, b: seq<Digit>)
    ensures DigitValues(DigitString(a) + DigitString(b)) == a + b
  {
    var s := DigitString(a) + DigitString(b);
    forall i | 0 <= i < |s| ensures DigitValue(s[i]) == (a + b)[i] {
      assert i < |a| ==> s[i] == DigitChar(a[i]);
      assert i >= |a| ==> s[i] == DigitChar(b[i - |a|]);
    }
  }

  lemma {:induction false} IndexAfterDigits(s: string, rest: string)
    requires AllDigits(s) && (rest == "" || rest[0] == '.')
    ensures SourceText.Find(s + rest, '.') == |s|
  {
    if s == "" {
      assert s + rest == rest;
    } else {
      assert (s + rest)[1..] == s[1..] + rest;
      IndexAfterDigits(s[1..], rest);
    }
  }

  lemma AssembledUnsigned(negative: bool, integral: seq<Digit>, fraction: seq<Digit>)
    requires integral != []
    ensures var s := Assemble(negative, integral, fraction);
            Negative(s) == negative && Unsigned(s) == Assemble(false, integral, fraction)
  {
    var u := DigitString(integral) + if fraction == [] then "" else "." + DigitString(fraction);
    assert u[0] == DigitString(integral)[0];
    assert "" + u == u;
    assert negative ==> ("-" + u)[1..] == u;
  }

  lemma SplitAtPoint(whole: string, head: string, tail: string)
    requires AllDigits(head) && (tail == "" || tail[0] == '.') && whole == head + tail
    ensures SourceText.Find(whole, '.') == |head| && whole[..|head|] == head
    ensures tail != "" ==> whole[|head| + 1..] == tail[1..]
  {
    IndexAfterDigits(head, tail);
  }

  lemma AssembledParts(negative: bool, integral: seq<Digit>, fraction: seq<Digit>)
    requires integral != []
    ensures var s := Assemble(negative, integral, fraction);
            && Integral(s) == DigitString(integral) && Fraction(s) == DigitString(fraction)
            && (HasPoint(s) <==> fraction != [])
  {
    var tail := if fraction == [] then "" else "." + DigitString(fraction);
    AssembledUnsigned(negative, integral, fraction);
    assert Assemble(false, integral, fraction) == DigitString(integral) + tail;
    SplitAtPoint(Unsigned(Assemble(negative, integral, fraction)), DigitString(integral), tail);
  }

  lemma AssembledAmount(negative: bool, integral: seq<Digit>, fraction: seq<Digit>)
    requires NoLeadingZero(integral)
    ensures var s := Assemble(negative, integral, fraction);
            && IsDecimalText(s) && Negative(s) == negative
            && TextAmount(s) == Amount(Signed(negative, Number(integral + fraction)), |fraction|)
  {
    var s := Assemble(negative, integral, fraction);
    AssembledUnsigned(negative, integral, fraction);
    AssembledParts(negative, integral, fraction);
    assert DigitString(integral)[0] == DigitChar(integral[0]);
    ValuesOfString(integral, fraction);
  }

  /** A rendered amount is decimal text and denotes that very amount. */
  lemma RenderedAmount(a: Amount)
    ensures IsDecimalText(Render(a)) && TextAmount(Render(a)) == a && Negative(Render(a)) == (a.units < 0)
  {
    var n := Abs(a.units);
    NumeralShape(Shift(n, a.scale));
    AssembledAmount(a.units < 0, Numeral(Shift(n, a.scale)), Padded(n, a.scale));
    SplitNumber(n, a.scale);
  }

  // ----- the laws of normalization -----

  lemma NormalizedIsByAmount(x: Input)
    ensures InputAmount(x).Some? ==> Normalized(x) == NormalizedAmount(InputAmount(x).value)
    ensures InputAmount(x).None? ==> Normalized(x).Err? && Normalized(x) != Err(DigitLimitExceeded)
  {
  }

  lemma NormalizedAmountExact(a: Amount)
    requires NormalizedAmount(a).Ok?
    ensures IsDecimalText(NormalizedAmount(a).value) && Same(TextAmount(NormalizedAmount(a).value), a)
  {
    RenderedAmount(Reduce(a));
    SameReduce(a);
  }

  /** The normalized text denotes exactly the value that was given. */
  lemma NormalizationPreservesValue(x: Input)
    requires Normalized(x).Ok?
    ensures InputAmount(x).Some? && IsDecimalText(Normalized(x).value)
    ensures Same(TextAmount(Normalized(x).value), InputAmount(x).value)
  {
    NormalizedIsByAmount(x);
    NormalizedAmountExact(InputAmount(x).value);
  }

  lemma AmountsDecide(a: Amount, b: Amount)
    ensures Same(a, b) ==> NormalizedAmount(a) == NormalizedAmount(b)
    ensures NormalizedAmount(a).Ok? && NormalizedAmount(a) == NormalizedAmount(b) ==> Same(a, b)
  {
    SameIffReduced(a, b);
    RenderInjective(Reduce(a), Reduce(b));
  }

  lemma RenderInjective(a: Amount, b: Amount)
    ensures Render(a) == Render(b) ==> a == b
  {
    RenderedAmount(a);
    RenderedAmount(b);
  }

  /** Equal values fare alike, whatever they were written as, and different values never share a text. */
  lemma NormalizationDecidesEquality(x: Input, y: Input)
    requires InputAmount(x).Some? && InputAmount(y).Some?
    ensures Same(InputAmount(x).value, InputAmount(y).value) ==> Normalized(x) == Normalized(y)
    ensures Normalized(x).Ok? && Normalized(x) == Normalized(y) ==> Same(InputAmount(x).value, InputAmount(y).value)
  {
    NormalizedIsByAmount(x);
    NormalizedIsByAmount(y);
    AmountsDecide(InputAmount(x).value, InputAmount(y).value);
  }

  lemma NormalizationIdempotent(x: Input)
    requires Normalized(x).Ok?
    ensures Normalized(TextInput(Normalized(x).value)) == Normalized(x)
  {
    var t := Normalized(x).value;
    NormalizationPreservesValue(x);
    NormalizationDecidesEquality(x, TextInput(t));
  }

  /** Some spelling of the number keeps within the digit bounds. */
  ghost predicate Spellable(a: Amount) {
    exists b: Amount :: Same(a, b) && WithinDigits(b)
  }

  lemma {:induction false} ReduceKeepsIntegral(a: Amount)
    ensures IntegralDigits(Reduce(a)) == IntegralDigits(a)
    decreases a.scale
  {
    if !Reduced(a) {
      var b := Amount(a.units / 10, a.scale - 1);
      assert Abs(b.units) == Abs(a.units) / 10;
      ReduceKeepsIntegral(b);
    }
  }

  /** A number is accepted by its value alone, whatever its spelling. */
  lemma AcceptedByValue(x: Input)
    requires InputAmount(x).Some?
    ensures Normalized(x).Ok? <==> Spellable(InputAmount(x).value)
  {
    var a := InputAmount(x).value;
    if WithinDigits(Reduce(a)) {
      SameReduce(a);
    }
    if Spellable(a) {
      var b :| Same(a, b) && WithinDigits(b);
      ReduceKeepsIntegral(b);
      SameIffReduced(a, b);
    }
  }

  // ----- the shape of normalized text -----

  predicate RenderedPasses(s: string) {
    |s| <= MAXIMUM_RENDERED_CHARACTERS && IsDecimalText(s)
  }

  lemma RenderedParts(a: Amount)
    ensures |Integral(Render(a))| == IntegralDigits(a) && |Fraction(Render(a))| == a.scale
    ensures a.scale > 0 ==> Fraction(Render(a))[a.scale - 1] == DigitChar(Abs(a.units) % 10)
    ensures |Render(a)| <= IntegralDigits(a) + a.scale + 2
  {
    var n := Abs(a.units);
    AssembledParts(a.units < 0, Numeral(Shift(n, a.scale)), Padded(n, a.scale));
    assert a.scale > 0 ==> Padded(n, a.scale)[a.scale - 1] == n % 10;
  }

  predicate CanonicalText(s: string) {
    && IsDecimalText(s) && DigitCountsPass(|Integral(s)|, |Fraction(s)|) && RenderedPasses(s)
    && (Negative(s) ==> TextAmount(s).units != 0)
    && (Fraction(s) != "" ==> Fraction(s)[|Fraction(s)| - 1] != '0')
  }

  lemma RenderedShape(r: Amount)
    requires Reduced(r) && WithinDigits(r)
    ensures CanonicalText(Render(r))
  {
    RenderedAmount(r);
    RenderedParts(r);
    if r.scale > 0 {
      LastDigitStays(r);
    }
  }

  lemma LastDigitStays(r: Amount)
    requires Reduced(r) && r.scale > 0
    ensures DigitChar(Abs(r.units) % 10) != '0'
  {
    assert Abs(r.units) % 10 != 0;
  }

  /** No "-0", no zero ending a fraction, and neither guard after rendering can reject. */
  lemma NormalizedShape(x: Input)
    requires Normalized(x).Ok?
    ensures CanonicalText(Normalized(x).value)
  {
    RenderedShape(Reduce(InputAmount(x).value));
  }

  // ----- the digits the source computes -----

  lemma {:induction false} NumberZeroOrNot(ds: seq<Digit>)
    ensures Number(ds) == 0 <==> forall i :: 0 <= i < |ds| ==> ds[i] == 0
  {
    if ds != [] {
      NumberZeroOrNot(ds[..|ds| - 1]);
    }
  }

  /** A decimal without trailing zeros, value kept: what the stripping loop leaves. */
  lemma {:induction false} StrippedZeros(d: Decimal, end: nat)
    requires d.Finite? && end <= |d.coefficient|
    requires forall i :: end <= i < |d.coefficient| ==> d.coefficient[i] == 0
    ensures Same(DecimalAmount(d),
                 DecimalAmount(Finite(d.negative, d.coefficient[..end], d.exponent + |d.coefficient| - end)))
    decreases |d.coefficient| - end
  {
    var n := |d.coefficient|;
    if end == n {
      assert d.coefficient[..end] == d.coefficient;
    } else {
      StrippedZeros(d, end + 1);
      var more := Finite(d.negative, d.coefficient[..end + 1], d.exponent + n - (end + 1));
      var less := Finite(d.negative, d.coefficient[..end], d.exponent + n - end);
      assert more.coefficient[..end] == less.coefficient;
      DropZero(more);
      SameIffReduced(DecimalAmount(d), DecimalAmount(more));
      SameIffReduced(DecimalAmount(more), DecimalAmount(less));
      SameIffReduced(DecimalAmount(d), DecimalAmount(less));
    }
  }

  lemma DropZero(d: Decimal)
    requires d.Finite? && d.coefficient != [] && d.coefficient[|d.coefficient| - 1] == 0
    ensures Same(DecimalAmount(d),
                 DecimalAmount(Finite(d.negative, d.coefficient[..|d.coefficient| - 1], d.exponent + 1)))
  {
    var v := Signed(d.negative, Number(d.coefficient[..|d.coefficient| - 1]));
    assert Signed(d.negative, Number(d.coefficient)) == 10 * v;
    ShiftPoint(v, d.exponent);
  }

  lemma ShiftPoint(v: int, e: int)
    ensures Same(Scaled(10 * v, e), Scaled(v, e + 1))
  {
    assert Pow10(0) == 1;
    if e >= 0 {
      assert Pow10(e + 1) == 10 * Pow10(e);
      assert v * (10 * Pow10(e)) == (10 * v) * Pow10(e);
    } else {
      var k: nat := -e;
      assert Pow10(k) == 10 * Pow10(k - 1);
      assert v * (10 * Pow10(k - 1)) == (10 * v) * Pow10(k - 1);
    }
  }

  /** Digits before the point when the point is moved by the exponent. */
  function PlaceIntegral(ds: seq<Digit>, exponent: int): seq<Digit> {
    if exponent >= 0 then ds + Zeros(exponent)
    else if |ds| + exponent > 0 then ds[..|ds| + exponent]
    else [0]
  }

  function PlaceFraction(ds: seq<Digit>, exponent: int): seq<Digit> {
    if exponent >= 0 then []
    else if |ds| + exponent > 0 then ds[|ds| + exponent..]
    else Zeros(-(|ds| + exponent)) + ds
  }

  lemma {:induction false} ShiftOfZero(k: nat)
    ensures Shift(0, k) == 0 && Padded(0, k) == Zeros(k)
  {
    if k > 0 {
      ShiftOfZero(k - 1);
      assert Zeros(k) == Zeros(k - 1) + [0];
    }
  }

  lemma {:induction false} ShiftDigits(ds: seq<Digit>, k: nat)
    requires ds == [] || ds[0] != 0
    ensures Numeral(Shift(Number(ds), k)) == if k < |ds| then ds[..|ds| - k] else [0]
    ensures Padded(Number(ds), k) == if k <= |ds| then ds[|ds| - k..] else Zeros(k - |ds|) + ds
    decreases k
  {
    if ds == [] {
      ShiftOfZero(k);
      assert Zeros(k) + ds == Zeros(k);
    } else if k == 0 {
      NumeralOfNumber(ds);
      assert ds[..|ds|] == ds;
    } else {
      var front := ds[..|ds| - 1];
      LastDigit(ds);
      ShiftDigits(front, k - 1);
      assert ds == front + [ds[|ds| - 1]];
      assert k < |ds| ==> front[..|ds| - k] == ds[..|ds| - k];
    }
  }

  lemma LastDigit(ds: seq<Digit>)
    requires ds != []
    ensures Number(ds) % 10 == ds[|ds| - 1] && Number(ds) / 10 == Number(ds[..|ds| - 1])
  {
    DivideTen(Number(ds[..|ds| - 1]), ds[|ds| - 1]);
  }

  lemma DivideTen(m: nat, d: Digit)
    ensures (10 * m + d) / 10 == m && (10 * m + d) % 10 == d
  {
  }

  lemma PlacedWhole(ds: seq<Digit>, exponent: nat)
    requires ds != [] && ds[0] != 0
    ensures Number(ds) * Pow10(exponent) > 0
    ensures Numeral(Number(ds) * Pow10(exponent)) == ds + Zeros(exponent)
  {
    NumberZeroOrNot(ds);
    NumberConcat(ds, Zeros(exponent));
    NumberOfZeros(exponent);
    NumeralOfNumber(ds + Zeros(exponent));
    Positive(Number(ds), Pow10(exponent));
  }

  lemma Positive(x: nat, y: nat)
    requires x > 0 && y > 0
    ensures x * y > 0
  {
  }

  lemma SignedProduct(negative: bool, n: nat, p: nat)
    ensures Signed(negative, n) * p == Signed(negative, n * p)
  {
  }

  lemma ScaledWhole(negative: bool, n: nat, exponent: nat)
    ensures Scaled(Signed(negative, n), exponent) == Amount(Signed(negative, n * Pow10(exponent)), 0)
  {
    SignedProduct(negative, n, Pow10(exponent));
  }

  /** These are the digits of an amount, and it is in lowest terms. */
  predicate HasDigits(a: Amount, negative: bool, integral: seq<Digit>, fraction: seq<Digit>) {
    && Reduced(a) && (a.units < 0) == negative
    && Numeral(Shift(Abs(a.units), a.scale)) == integral && Padded(Abs(a.units), a.scale) == fraction
  }

  /** The digits of a whole or a fractional amount, given the digits of its magnitude. */
  lemma AmountDigits(negative: bool, m: nat, scale: nat, integral: seq<Digit>, fraction: seq<Digit>)
    requires m > 0 && (scale > 0 ==> m % 10 != 0)
    requires Numeral(Shift(m, scale)) == integral && Padded(m, scale) == fraction
    ensures HasDigits(Amount(Signed(negative, m), scale), negative, integral, fraction)
  {
  }

  lemma PlacedWholeDigits(negative: bool, ds: seq<Digit>, exponent: int)
    requires ds != [] && ds[0] != 0 && exponent >= 0
    ensures HasDigits(Scaled(Signed(negative, Number(ds)), exponent), negative,
                      PlaceIntegral(ds, exponent), PlaceFraction(ds, exponent))
  {
    PlacedWhole(ds, exponent);
    ScaledWhole(negative, Number(ds), exponent);
    AmountDigits(negative, Number(ds) * Pow10(exponent), 0, ds + Zeros(exponent), []);
  }

  lemma PlacedParts(ds: seq<Digit>, exponent: int)
    requires ds != [] && ds[0] != 0 && exponent < 0
    ensures Numeral(Shift(Number(ds), -exponent)) == PlaceIntegral(ds, exponent)
    ensures Padded(Number(ds), -exponent) == PlaceFraction(ds, exponent)
  {
    ShiftDigits(ds, -exponent);
    assert |ds| + exponent == 0 ==> ds[0..] == Zeros(0) + ds;
  }

  lemma SplitDigits(negative: bool, n: nat, exponent: int, integral: seq<Digit>, fraction: seq<Digit>)
    requires exponent < 0 && n % 10 != 0
    requires Numeral(Shift(n, -exponent)) == integral && Padded(n, -exponent) == fraction
    ensures HasDigits(Scaled(Signed(negative, n), exponent), negative, integral, fraction)
  {
    AmountDigits(negative, n, -exponent, integral, fraction);
  }

  lemma PlacedSplitDigits(negative: bool, ds: seq<Digit>, n: nat, exponent: int)
    requires ds != [] && ds[0] != 0 && ds[|ds| - 1] != 0 && exponent < 0 && n == Number(ds)
    ensures HasDigits(Scaled(Signed(negative, n), exponent), negative, PlaceIntegral(ds, exponent),
                      PlaceFraction(ds, exponent))
  {
    LastDigit(ds);
    PlacedParts(ds, exponent);
    SplitDigits(negative, n, exponent, PlaceIntegral(ds, exponent), PlaceFraction(ds, exponent));
  }

  /** The amount a stripped coefficient and exponent stand for has the digits that placing them gives. */
  lemma PlacedDigits(negative: bool, ds: seq<Digit>, exponent: int)
    requires ds != [] && ds[0] != 0 && ds[|ds| - 1] != 0
    ensures HasDigits(Scaled(Signed(negative, Number(ds)), exponent), negative,
                      PlaceIntegral(ds, exponent), PlaceFraction(ds, exponent))
  {
    if exponent >= 0 {
      PlacedWholeDigits(negative, ds, exponent);
    } else {
      PlacedSplitDigits(negative, ds, Number(ds), exponent);
    }
  }

  lemma PlacedNormalizes(negative: bool, ds: seq<Digit>, exponent: int)
    requires ds != [] && ds[0] != 0 && ds[|ds| - 1] != 0
    ensures var integral, fraction := PlaceIntegral(ds, exponent), PlaceFraction(ds, exponent);
            && integral != [] && (integral[0] != 0 || |integral| == 1)
            && (fraction != [] ==> fraction[|fraction| - 1] != 0)
            && NormalizedAmount(Scaled(Signed(negative, Number(ds)), exponent))
                 == (if DigitCountsPass(|integral|, |fraction|) then Ok(Assemble(negative, integral, fraction))
                     else Err(DigitLimitExceeded))
            && (DigitCountsPass(|integral|, |fraction|) ==> RenderedPasses(Assemble(negative, integral, fraction)))
  {
    PlacedDigits(negative, ds, exponent);
    var a := Scaled(Signed(negative, Number(ds)), exponent);
    if WithinDigits(a) {
      RenderedShape(a);
    }
  }

  lemma ZeroNormalizes(d: Decimal)
    requires d.Finite? && forall i :: 0 <= i < |d.coefficient| ==> d.coefficient[i] == 0
    ensures NormalizedAmount(DecimalAmount(d)) == Ok("0")
  {
    NumberZeroOrNot(d.coefficient);
    var a, zero := DecimalAmount(d), Amount(0, 0);
    assert a.units == 0;
    AmountsDecide(a, zero);
    assert Shift(0, 0) == 0 && Padded(0, 0) == [] && Numeral(0) == [0];
    assert DigitString([0]) == "0";
    assert Assemble(false, [0], []) == "" + ("0" + "");
    assert Render(zero) == "0";
  }

  // ----- the source's way there -----

  /** `text.lstrip("0") or "0"`, on digits. */
  function StripLeading(ds: seq<Digit>): (r: seq<Digit>)
    ensures NoLeadingZero(ds) ==> r == ds
  {
    if ds == [] then [0] else if ds[0] == 0 then StripLeading(ds[1..]) else ds
  }

  /** `text.rstrip("0")`, on digits. */
  function StripTrailing(ds: seq<Digit>): (r: seq<Digit>)
    ensures ds == [] || ds[|ds| - 1] != 0 ==> r == ds
  {
    if ds != [] && ds[|ds| - 1] == 0 then StripTrailing(ds[..|ds| - 1]) else ds
  }

  method CountDigits(significantEnd: nat, exponent: int) returns (integral: int, fractional: int)
    requires significantEnd > 0
    ensures forall ds: seq<Digit> :: |ds| == significantEnd ==>
              integral == |PlaceIntegral(ds, exponent)| && fractional == |PlaceFraction(ds, exponent)|
  {
    if exponent >= 0 {
      integral := significantEnd + exponent;
      fractional := 0;
    } else {
      var decimalPosition := significantEnd + exponent;
      if decimalPosition > 0 {
        integral := decimalPosition;
        fractional := -exponent;
      } else {
        integral := 1;
        fractional := -exponent;
      }
    }
  }

  method PlaceDigits(digits: seq<Digit>, exponent: int) returns (integral: seq<Digit>, fractional: seq<Digit>)
    requires digits != [] && NoLeadingZero(PlaceIntegral(digits, exponent))
    requires PlaceFraction(digits, exponent) == []
             || PlaceFraction(digits, exponent)[|PlaceFraction(digits, exponent)| - 1] != 0
    ensures integral == PlaceIntegral(digits, exponent) && fractional == PlaceFraction(digits, exponent)
  {
    if exponent >= 0 {
      integral := digits + Zeros(exponent);
      fractional := [];
    } else {
      var decimalPosition := |digits| + exponent;
      if decimalPosition > 0 {
        integral := digits[..decimalPosition];
        fractional := digits[decimalPosition..];
      } else {
        integral := [0];
        fractional := Zeros(-decimalPosition) + digits;
      }
    }
    integral := StripLeading(integral);
    fractional := StripTrailing(fractional);
  }

  lemma PlacedTooLong(ds: seq<Digit>, exponent: int)
    requires ds != []
    ensures |ds| <= |PlaceIntegral(ds, exponent)| + |PlaceFraction(ds, exponent)|
  {
  }

  method RenderStripped(negative: bool, digits: seq<Digit>, exponent: int) returns (r: Result<string, DecimalError>)
    requires digits != [] && digits[0] != 0 && digits[|digits| - 1] != 0
    ensures r == NormalizedAmount(Scaled(Signed(negative, Number(digits)), exponent))
  {
    PlacedNormalizes(negative, digits, exponent);
    PlacedTooLong(digits, exponent);
    if |digits| > MAXIMUM_TOTAL_DIGITS {
      return Err(DigitLimitExceeded);
    }
    var integralDigits, fractionalDigits := CountDigits(|digits|, exponent);
    assert integralDigits == |PlaceIntegral(digits, exponent)| && fractionalDigits == |PlaceFraction(digits, exponent)|;
    if integralDigits > MAXIMUM_INTEGRAL_DIGITS || fractionalDigits > MAXIMUM_FRACTIONAL_DIGITS
       || integralDigits + fractionalDigits > MAXIMUM_TOTAL_DIGITS {
      return Err(DigitLimitExceeded);
    }
    var integral, fractional := PlaceDigits(digits, exponent);
    var normalized := Assemble(negative, integral, fractional);
    r := if !DigitCountsPass(|integral|, |fractional|) then Err(DigitLimitExceeded)
         else if !RenderedPasses(normalized) then Err(NormalizationFailed)
         else Ok(normalized);
  }

  method NormalizeFinite(d: Decimal) returns (r: Result<string, DecimalError>)
    requires d.Finite? && ValidDecimal(d)
    ensures r == NormalizedAmount(DecimalAmount(d))
  {
    var coefficient, exponent := d.coefficient, d.exponent;
    if forall i :: 0 <= i < |coefficient| ==> coefficient[i] == 0 {
      ZeroNormalizes(d);
      return Ok("0");
    }
    var significantEnd := |coefficient|;
    while coefficient[significantEnd - 1] == 0
      invariant 0 < significantEnd <= |coefficient|
      invariant exponent == d.exponent + |coefficient| - significantEnd
      invariant forall i :: significantEnd <= i < |coefficient| ==> coefficient[i] == 0
      decreases significantEnd
    {
      significantEnd := significantEnd - 1;
      exponent := exponent + 1;
    }
    StrippedZeros(d, significantEnd);
    AmountsDecide(DecimalAmount(d), Scaled(Signed(d.negative, Number(coefficient[..significantEnd])), exponent));
    r := RenderStripped(d.negative, coefficient[..significantEnd], exponent);
  }

  lemma IntegerLimit(n: int)
    requires Abs(n) >= Pow10(MAXIMUM_INTEGRAL_DIGITS)
    ensures NormalizedAmount(Amount(n, 0)) == Err(DigitLimitExceeded)
  {
    NumeralLength(Abs(n), MAXIMUM_INTEGRAL_DIGITS);
  }

  method NormalizeDecimal(x: Input) returns (r: Result<string, DecimalError>)
    requires x.DecimalInput? ==> ValidDecimal(x.d)
    ensures r == Normalized(x)
  {
    var d: Decimal;
    match x {
      case BoolInput(_) =>
        return Err(TypeInvalid);
      case OtherInput =>
        return Err(TypeInvalid);
      case IntInput(n) =>
        if Abs(n) >= Pow10(MAXIMUM_INTEGRAL_DIGITS) {
          IntegerLimit(n);
          return Err(DigitLimitExceeded);
        }
        NumeralShape(Abs(n));
        NumberOfNumeral(Abs(n));
        d := Finite(n < 0, Numeral(Abs(n)), 0);
      case DecimalInput(given) =>
        d := given;
      case TextInput(s) =>
        if !IsDecimalText(s) {
          return Err(TextInvalid);
        }
        NumberOfNumeral(Number(DigitValues(Integral(s) + Fraction(s))));
        d := TextDecimal(s);
    }
    if d.NonFinite? {
      return Err(NonFiniteProhibited);
    }
    assert Pow10(0) == 1;
    assert InputAmount(x) == Some(DecimalAmount(d));
    r := NormalizeFinite(d);
  }
}
