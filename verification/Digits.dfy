/** Decimal numerals: the digits Python's `str(int)` writes and `int(text)` reads. */
module Digits {

  type Digit = d: nat | d < 10

  function Pow10(k: nat): (p: nat)
    ensures p > 0
  {
    if k == 0 then 1 else 10 * Pow10(k - 1)
  }

  /** The number a digit sequence denotes, most significant digit first. */
  function Number(ds: seq<Digit>): nat {
    if ds == [] then 0 else 10 * Number(ds[..|ds| - 1]) + ds[|ds| - 1]
  }

  function Signed(negative: bool, n: nat): int {
    var m: int := n;
    if negative then -m else m
  }

  /** The digits of a number without leading zeros; zero is the single digit 0. */
  function Numeral(n: nat): seq<Digit> {
    if n < 10 then [n] else Numeral(n / 10) + [n % 10]
  }

  predicate NoLeadingZero(ds: seq<Digit>) {
    |ds| > 0 && (ds[0] != 0 || |ds| == 1)
  }

  lemma {:induction false} NumeralShape(n: nat)
    ensures NoLeadingZero(Numeral(n))
    ensures Numeral(n)[0] == 0 <==> n == 0
  {
    if n >= 10 {
      NumeralShape(n / 10);
    }
  }

  lemma {:induction false} NumberOfNumeral(n: nat)
    ensures Number(Numeral(n)) == n
  {
    if n < 10 {
      assert Number([]) == 0;
      assert Numeral(n)[..0] == [];
    } else {
      NumberOfNumeral(n / 10);
      assert Numeral(n)[..|Numeral(n)| - 1] == Numeral(n / 10);
    }
  }

  lemma {:induction false} NumberBound(ds: seq<Digit>)
    ensures Number(ds) < Pow10(|ds|)
  {
    if ds != [] {
      NumberBound(ds[..|ds| - 1]);
    }
  }

  lemma {:induction false} NumberLowerBound(ds: seq<Digit>)
    requires |ds| > 0 && ds[0] != 0
    ensures Number(ds) >= Pow10(|ds| - 1)
  {
    if |ds| == 1 {
      assert Number(ds[..0]) == 0;
    } else {
      NumberLowerBound(ds[..|ds| - 1]);
    }
  }

  lemma {:induction false} NumeralOfNumber(ds: seq<Digit>)
    requires NoLeadingZero(ds)
    ensures Numeral(Number(ds)) == ds
  {
    var front := ds[..|ds| - 1];
    if |ds| == 1 {
      assert Number(front) == 0;
    } else {
      NumeralOfNumber(front);
      NumberLowerBound(front);
      assert Number(ds) == 10 * Number(front) + ds[|ds| - 1];
      assert Number(ds) / 10 == Number(front) && Number(ds) % 10 == ds[|ds| - 1];
      assert Number(ds) >= 10;
      assert ds == front + [ds[|ds| - 1]];
    }
  }

  lemma {:induction false} NumberConcat(a: seq<Digit>, b: seq<Digit>)
    ensures Number(a + b) == Number(a) * Pow10(|b|) + Number(b)
  {
    if b == [] {
      assert a + b == a;
    } else {
      var front := b[..|b| - 1];
      NumberConcat(a, front);
      assert (a + b)[..|a + b| - 1] == a + front;
      assert Number(a + b) == 10 * Number(a + front) + b[|b| - 1];
      assert 10 * (Number(a) * Pow10(|front|)) == Number(a) * Pow10(|b|);
    }
  }

  lemma {:induction false} Pow10Sum(j: nat, k: nat)
    ensures Pow10(j + k) == Pow10(j) * Pow10(k)
  {
    if j > 0 {
      Pow10Sum(j - 1, k);
      assert 10 * (Pow10(j - 1) * Pow10(k)) == Pow10(j) * Pow10(k);
    }
  }

  lemma {:induction false} Pow10Monotone(j: nat, k: nat)
    requires j <= k
    ensures Pow10(j) <= Pow10(k)
  {
    if j < k {
      Pow10Monotone(j, k - 1);
    }
  }

  /** A numeral has at most k digits exactly when its number is below ten to the k. */
  lemma NumeralLength(n: nat, k: nat)
    requires k > 0
    ensures |Numeral(n)| <= k <==> n < Pow10(k)
  {
    NumberOfNumeral(n);
    NumeralShape(n);
    NumberBound(Numeral(n));
    if |Numeral(n)| <= k {
      Pow10Monotone(|Numeral(n)|, k);
    } else {
      assert n >= 10;
      NumberLowerBound(Numeral(n));
      Pow10Monotone(k, |Numeral(n)| - 1);
    }
  }

  function Zeros(k: nat): (z: seq<Digit>)
    ensures |z| == k
  {
    seq(k, _ => 0)
  }

  lemma {:induction false} NumberOfZeros(k: nat)
    ensures Number(Zeros(k)) == 0
  {
    if k > 0 {
      NumberOfZeros(k - 1);
      assert Zeros(k)[..k - 1] == Zeros(k - 1);
    }
  }
}
