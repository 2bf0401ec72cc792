/**
 The references a response may cite: the closed grammar (mmi/contracts.py) and the catalog a
 view supports (`_source_bound_reference_catalog` in mmi/validated_grounded_analysis_response.py).
 */
module References {
  import opened Outcomes
  import opened Digits
  import opened Decimals
  import SourceText
  import opened AnalystView
  import opened ViewContract

  const ALWAYS_ALLOWED: set<string> :=
    { "VIEW.EVALUATION_TIMESTAMP", "VIEW.COMPLETENESS_STATUS", "POLICY.AS_OF_DATE", "POLICY.METHOD",
      "POLICY.BENCHMARK.0001", "POLICY.EXTENDED_ACTIVATION_STATUS", "POLICY.INSTRUMENT_AVAILABILITY_STATUS",
      "POLICY.TARGET_WEIGHTS_ABSENCE_REASON", "PORTFOLIO.PRESENCE_STATUS" }

  const PRESENT_PORTFOLIO: set<string> :=
    { "PORTFOLIO.SOURCE_DATE", "PORTFOLIO.OPEN_BUY_STATUS", "PORTFOLIO.COVERAGE.HOLDINGS", "PORTFOLIO.COVERAGE.CASH",
      "PORTFOLIO.COVERAGE.DEPLOYABLE_CASH", "PORTFOLIO.COVERAGE.OPEN_SELLS", "PORTFOLIO.COVERAGE.TAX_LOTS",
      "PORTFOLIO.COVERAGE.HOLDING_DATES", "PORTFOLIO.COVERAGE.GAINS_LOSSES", "PORTFOLIO.COVERAGE.WEIGHTS",
      "PORTFOLIO.COVERAGE.NAV_CONCENTRATION", "PORTFOLIO.COVERAGE.LOOK_THROUGH_EXPOSURE" }

  /** The kinds of numbered reference. */
  datatype Kind = InstrumentRef | ObservationRef | LimitationRef

  function Prefix(k: Kind): string {
    match k
    case InstrumentRef => "POLICY.INSTRUMENT."
    case ObservationRef => "PORTFOLIO.OBSERVATION."
    case LimitationRef => "LIMITATION."
  }

  /** `{index:04d}`. */
  function FourDigits(n: nat): (s: string)
    requires n < 10_000
    ensures |s| == 4
  {
    DigitString(Padded(n, 4))
  }

  function Numbered(k: Kind, n: nat): string
    requires n < 10_000
  {
    Prefix(k) + FourDigits(n)
  }

  // ----- the grammar -----

  predicate Between(c: char, low: char, high: char) {
    low <= c <= high
  }

  /** `000[1-9]|00[1-9][0-9]|01[0-9]{2}|02[0-4][0-9]|025[0-6]`. */
  predicate IsPosition256(d: string) {
    && |d| == 4
    && (|| (d[0] == '0' && d[1] == '0' && d[2] == '0' && Between(d[3], '1', '9'))
        || (d[0] == '0' && d[1] == '0' && Between(d[2], '1', '9') && Between(d[3], '0', '9'))
        || (d[0] == '0' && d[1] == '1' && Between(d[2], '0', '9') && Between(d[3], '0', '9'))
        || (d[0] == '0' && d[1] == '2' && Between(d[2], '0', '4') && Between(d[3], '0', '9'))
        || (d[0] == '0' && d[1] == '2' && d[2] == '5' && Between(d[3], '0', '6')))
  }

  /** `00(?:0[1-9]|1[0-4])`. */
  predicate IsPosition14(d: string) {
    && |d| == 4 && d[0] == '0' && d[1] == '0'
    && ((d[2] == '0' && Between(d[3], '1', '9')) || (d[2] == '1' && Between(d[3], '0', '4')))
  }

  predicate Matches(r: string, k: Kind) {
    && Prefix(k) <= r
    && var d := r[|Prefix(k)|..];
    if k.LimitationRef? then IsPosition14(d) else IsPosition256(d)
  }

  predicate InGrammar(r: string) {
    r in ALWAYS_ALLOWED || r in PRESENT_PORTFOLIO || exists k :: Matches(r, k)
  }

  function Limit(k: Kind): nat {
    if k.LimitationRef? then 14 else 256
  }

  lemma FourDigitsAre(n: nat)
    requires n < 10_000
    ensures FourDigits(n)[0] == DigitChar(n / 10 / 10 / 10 % 10) && FourDigits(n)[1] == DigitChar(n / 10 / 10 % 10)
    ensures FourDigits(n)[2] == DigitChar(n / 10 % 10) && FourDigits(n)[3] == DigitChar(n % 10)
  {
    assert Padded(n / 10 / 10 / 10, 1) == [n / 10 / 10 / 10 % 10];
    assert Padded(n / 10 / 10, 2) == [n / 10 / 10 / 10 % 10, n / 10 / 10 % 10];
    assert Padded(n / 10, 3) == [n / 10 / 10 / 10 % 10, n / 10 / 10 % 10, n / 10 % 10];
    assert Padded(n, 4) == [n / 10 / 10 / 10 % 10, n / 10 / 10 % 10, n / 10 % 10, n % 10];
  }

  function DigitsNumber(d: string): nat
    requires |d| == 4 && AllDigits(d)
  {
    1000 * DigitValue(d[0]) + 100 * DigitValue(d[1]) + 10 * DigitValue(d[2]) + DigitValue(d[3])
  }

  lemma FourDigitsNumber(n: nat)
    requires n < 10_000
    ensures AllDigits(FourDigits(n)) && DigitsNumber(FourDigits(n)) == n
  {
    FourDigitsAre(n);
  }

  lemma NumberFourDigits(d: string)
    requires |d| == 4 && AllDigits(d)
    ensures DigitsNumber(d) < 10_000 && FourDigits(DigitsNumber(d)) == d
  {
    var n := DigitsNumber(d);
    var a: int, b: int, c: int := DigitValue(d[0]), DigitValue(d[1]), DigitValue(d[2]);
    assert n / 10 == 100 * a + 10 * b + c && n / 10 / 10 == 10 * a + b && n / 10 / 10 / 10 == a;
    FourDigitsAre(n);
    forall i | 0 <= i < 4 ensures FourDigits(n)[i] == d[i] {
      assert DigitChar(DigitValue(d[i])) == d[i];
    }
  }

  /** The patterns spell out exactly the positions from 1 to their limit. */
  lemma PatternsArePositions(d: string)
    requires |d| == 4 && AllDigits(d)
    ensures IsPosition256(d) <==> 1 <= DigitsNumber(d) <= 256
    ensures IsPosition14(d) <==> 1 <= DigitsNumber(d) <= 14
  {
  }

  lemma PatternsAreDigits(d: string)
    requires IsPosition256(d) || IsPosition14(d)
    ensures |d| == 4 && AllDigits(d)
  {
  }

  /** A numbered reference is in the grammar exactly when it is a position within its limit. */
  lemma MatchesExactly(r: string, k: Kind)
    ensures Matches(r, k) <==> exists n :: 1 <= n <= Limit(k) && r == Numbered(k, n)
  {
    if Matches(r, k) {
      var d := r[|Prefix(k)|..];
      PatternsAreDigits(d);
      PatternsArePositions(d);
      NumberFourDigits(d);
      assert r == Numbered(k, DigitsNumber(d));
    }
    if n :| 1 <= n <= Limit(k) && r == Numbered(k, n) {
      assert r[|Prefix(k)|..] == FourDigits(n);
      FourDigitsNumber(n);
      PatternsArePositions(FourDigits(n));
    }
  }

  // ----- forms do not overlap -----

  lemma NumberedInjective(j: Kind, m: nat, k: Kind, n: nat)
    requires m < 10_000 && n < 10_000
    ensures Numbered(j, m) == Numbered(k, n) <==> j == k && m == n
  {
    var r, s := Numbered(j, m), Numbered(k, n);
    if r == s {
      assert |Prefix(j)| == |Prefix(k)|;
      assert r[|Prefix(j)|..] == FourDigits(m) && s[|Prefix(k)|..] == FourDigits(n);
      FourDigitsNumber(m);
      FourDigitsNumber(n);
    }
  }

  /** Not a digit at the end, or not as long as any numbered reference. */
  predicate NeverNumbered(s: string) {
    s != "" && (!SourceText.IsAsciiDigit(s[|s| - 1]) || |s| == 21)
  }

  /** A part of a portfolio that is only there when one was supplied. */
  predicate PortfolioPart(s: string) {
    |s| > 10 && s[2] == 'R' && s[10] != 'P'
  }

  lemma AlwaysShape(s: string)
    requires s in ALWAYS_ALLOWED
    ensures NeverNumbered(s) && !PortfolioPart(s)
  {
  }

  lemma PresentShape(s: string)
    requires s in PRESENT_PORTFOLIO
    ensures NeverNumbered(s) && PortfolioPart(s)
  {
  }

  lemma NumberedShape(k: Kind, n: nat)
    requires n < 10_000
    ensures !NeverNumbered(Numbered(k, n))
  {
    FourDigitsNumber(n);
    var r := Numbered(k, n);
    assert r[|r| - 1] == FourDigits(n)[3];
  }

  // ----- the catalog -----

  /** How many positions of a kind a view has. */
  function Count(v: View, k: Kind): nat {
    match k
    case InstrumentRef => |v.policy.instruments|
    case LimitationRef => |v.limitations|
    case ObservationRef => if v.portfolio.PresentView? then |v.portfolio.observations| else 0
  }

  /** Four digits are enough, as they are for every view within its contract. */
  predicate Numberable(v: View) {
    forall k :: Count(v, k) < 10_000
  }

  function NumberedUpTo(k: Kind, n: nat): set<string>
    requires n < 10_000
  {
    set i: nat | 1 <= i <= n :: Numbered(k, i)
  }

  function Catalog(v: View): set<string>
    requires Numberable(v)
  {
    ALWAYS_ALLOWED + NumberedUpTo(InstrumentRef, Count(v, InstrumentRef))
    + NumberedUpTo(LimitationRef, Count(v, LimitationRef))
    + if v.portfolio.PresentView? then PRESENT_PORTFOLIO + NumberedUpTo(ObservationRef, Count(v, ObservationRef))
      else {}
  }

  method UpdateNumbered(before: set<string>, k: Kind, n: nat) returns (allowed: set<string>)
    requires n < 10_000
    ensures allowed == before + NumberedUpTo(k, n)
  {
    allowed := before;
    for i := 0 to n
      invariant allowed == before + NumberedUpTo(k, i)
    {
      assert NumberedUpTo(k, i + 1) == NumberedUpTo(k, i) + {Numbered(k, i + 1)};
      allowed := allowed + {Numbered(k, i + 1)};
    }
  }

  method SourceBoundReferenceCatalog(v: View) returns (allowed: set<string>)
    requires Numberable(v)
    ensures allowed == Catalog(v)
  {
    allowed := ALWAYS_ALLOWED;
    allowed := UpdateNumbered(allowed, InstrumentRef, Count(v, InstrumentRef));
    allowed := UpdateNumbered(allowed, LimitationRef, Count(v, LimitationRef));
    if v.portfolio.PresentView? {
      allowed := allowed + PRESENT_PORTFOLIO;
      allowed := UpdateNumbered(allowed, ObservationRef, Count(v, ObservationRef));
    }
  }

  lemma CountsWithinLimits(v: View, padsYears: bool)
    requires ValidView(v, padsYears)
    ensures Numberable(v) && forall k :: Count(v, k) <= Limit(k)
  {
  }

  lemma NumberedInCatalog(v: View, k: Kind, n: nat)
    requires Numberable(v) && n < 10_000
    ensures Numbered(k, n) in Catalog(v) <==> 1 <= n <= Count(v, k)
  {
    var r := Numbered(k, n);
    NumberedShape(k, n);
    if r in ALWAYS_ALLOWED {
      AlwaysShape(r);
    }
    if r in PRESENT_PORTFOLIO {
      PresentShape(r);
    }
    forall j: Kind, i: nat | 1 <= i < 10_000 && Numbered(j, i) == r ensures j == k && i == n {
      NumberedInjective(j, i, k, n);
    }
  }

  /** A fixed name is allowed always, or exactly when a portfolio is present. */
  lemma NamesInCatalog(v: View, r: string)
    requires Numberable(v)
    ensures r in ALWAYS_ALLOWED ==> r in Catalog(v)
    ensures r in PRESENT_PORTFOLIO ==> (r in Catalog(v) <==> v.portfolio.PresentView?)
  {
    if r in PRESENT_PORTFOLIO {
      PresentShape(r);
      if r in ALWAYS_ALLOWED {
        AlwaysShape(r);
      }
      forall j: Kind, i: nat | 1 <= i < 10_000 ensures Numbered(j, i) != r {
        NumberedShape(j, i);
      }
    }
  }

  /**
   Every reference a contract-valid view supports is in the closed grammar, and a grammar
   reference is supported exactly when the position it numbers, or the portfolio part it names,
   is there.
   */
  lemma CatalogAgainstGrammar(v: View, padsYears: bool, r: string)
    requires ValidView(v, padsYears)
    ensures Numberable(v)
    ensures r in Catalog(v) ==> InGrammar(r)
    ensures InGrammar(r) ==>
              (r in Catalog(v) <==>
                 || r in ALWAYS_ALLOWED
                 || (r in PRESENT_PORTFOLIO && v.portfolio.PresentView?)
                 || exists k: Kind, n: nat :: 1 <= n <= Count(v, k) && n < 10_000 && r == Numbered(k, n))
    ensures forall k: Kind, n: nat :: 1 <= n <= Limit(k) ==>
              InGrammar(Numbered(k, n)) && (Numbered(k, n) in Catalog(v) <==> n <= Count(v, k))
  {
    CountsWithinLimits(v, padsYears);
    NamesInCatalog(v, r);
    forall k: Kind ensures Matches(r, k) <==> exists n :: 1 <= n <= Limit(k) && r == Numbered(k, n) {
      MatchesExactly(r, k);
    }
    forall k: Kind, n: nat | n < 10_000 ensures Numbered(k, n) in Catalog(v) <==> 1 <= n <= Count(v, k) {
      NumberedInCatalog(v, k, n);
    }
    forall k: Kind, n: nat | 1 <= n <= Limit(k) ensures InGrammar(Numbered(k, n)) {
      MatchesExactly(Numbered(k, n), k);
    }
  }
}
