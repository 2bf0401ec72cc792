/** Exact decimal amounts: an integer of units at a decimal scale. */
module Amounts {
  import opened Digits

  /** units divided by ten to the scale. */
  datatype Amount = Amount(units: int, scale: nat)

  /** Equal as exact numbers, by cross-multiplication. */
  predicate Same(a: Amount, b: Amount) {
    a.units * Pow10(b.scale) == b.units * Pow10(a.scale)
  }

  predicate AmountLess(a: Amount, b: Amount) {
    a.units * Pow10(b.scale) < b.units * Pow10(a.scale)
  }

  /** The same number in units of a finer scale. */
  function At(a: Amount, scale: nat): int
    requires a.scale <= scale
  {
    a.units * Pow10(scale - a.scale)
  }

  lemma Cancel(x: int, y: int, p: int)
    requires p > 0
    ensures x * p == y * p <==> x == y
  {
    if x < y {
      assert (y - x) * p > 0;
    } else if y < x {
      assert (x - y) * p > 0;
    }
  }

  /** Amounts are equal exactly when their units at one common scale are. */
  lemma SameAt(a: Amount, b: Amount, scale: nat)
    requires a.scale <= scale && b.scale <= scale
    ensures Same(a, b) <==> At(a, scale) == At(b, scale)
  {
    var pa, pb := Pow10(a.scale), Pow10(b.scale);
    var qa, qb := Pow10(scale - a.scale), Pow10(scale - b.scale);
    Pow10Sum(scale - a.scale, a.scale);
    Pow10Sum(scale - b.scale, b.scale);
    var p := Pow10(scale);
    assert qa * pa == p && qb * pb == p;
    SameScaled(a.units, b.units, pa, pb, qa, qb, p);
  }

  lemma SameScaled(ua: int, ub: int, pa: nat, pb: nat, qa: nat, qb: nat, p: nat)
    requires pa > 0 && pb > 0 && p > 0 && qa * pa == p && qb * pb == p
    ensures ua * pb == ub * pa <==> ua * qa == ub * qb
  {
    Positive(pa, pb);
    Commute(ua, qa, pa, pb);
    Commute(ub, qb, pb, pa);
    Swap(pa, pb);
    Cancel(ua * qa, ub * qb, pa * pb);
    Cancel(ua * pb, ub * pa, p);
  }

  lemma Positive(p: nat, q: nat)
    requires p > 0 && q > 0
    ensures p * q > 0
  {
  }

  lemma Swap(p: int, q: int)
    ensures p * q == q * p
  {
  }

  lemma Commute(u: int, q: int, p: int, r: int)
    ensures (u * q) * (p * r) == (u * r) * (q * p)
  {
    calc {
      (u * q) * (p * r);
      u * (q * (p * r));
      { assert q * (p * r) == r * (q * p) by { assert q * (p * r) == (q * p) * r; } }
      u * (r * (q * p));
      (u * r) * (q * p);
    }
  }

  // ----- lowest terms -----

  predicate Reduced(a: Amount) {
    a.scale == 0 || a.units % 10 != 0
  }

  function Reduce(a: Amount): (r: Amount)
    ensures Reduced(r) && r.scale <= a.scale
    decreases a.scale
  {
    if Reduced(a) then a else Reduce(Amount(a.units / 10, a.scale - 1))
  }

  lemma {:induction false} ReduceAt(a: Amount)
    ensures At(Reduce(a), a.scale) == a.units
    decreases a.scale
  {
    if Reduced(a) {
      assert Pow10(0) == 1;
    } else {
      var b := Amount(a.units / 10, a.scale - 1);
      ReduceAt(b);
      var r := Reduce(b);
      assert Pow10(a.scale - r.scale) == 10 * Pow10(b.scale - r.scale);
      assert r.units * (10 * Pow10(b.scale - r.scale)) == 10 * At(r, b.scale);
    }
  }

  lemma ReducedUnique(a: Amount, b: Amount)
    requires Reduced(a) && Reduced(b) && a.scale <= b.scale && At(a, b.scale) == b.units
    ensures a == b
  {
    assert Pow10(0) == 1;
    if a.scale < b.scale {
      TenDivides(a.units, b.scale - a.scale);
    }
  }

  lemma TenDivides(u: int, k: nat)
    requires k > 0
    ensures (u * Pow10(k)) % 10 == 0
  {
    TenOut(u, Pow10(k - 1));
    TenTimes(u * Pow10(k - 1));
  }

  lemma TenOut(u: int, q: int)
    ensures u * (10 * q) == 10 * (u * q)
  {
  }

  lemma TenTimes(n: int)
    ensures (10 * n) % 10 == 0
  {
  }

  lemma AtFiner(a: Amount, scale: nat, finer: nat)
    requires a.scale <= scale <= finer
    ensures At(a, finer) == At(a, scale) * Pow10(finer - scale)
  {
    Pow10Sum(scale - a.scale, finer - scale);
  }

  /** Equal amounts are exactly those with the same lowest terms. */
  lemma SameIffReduced(a: Amount, b: Amount)
    ensures Same(a, b) <==> Reduce(a) == Reduce(b)
  {
    var scale := a.scale + b.scale;
    var ra, rb := Reduce(a), Reduce(b);
    ReduceAt(a);
    ReduceAt(b);
    AtFiner(ra, a.scale, scale);
    AtFiner(rb, b.scale, scale);
    SameAt(a, b, scale);
    if Same(a, b) {
      assert At(ra, scale) == At(rb, scale);
      if ra.scale <= rb.scale {
        CoarserIsSame(ra, rb, scale);
      } else {
        CoarserIsSame(rb, ra, scale);
      }
    }
  }

  lemma CoarserIsSame(a: Amount, b: Amount, scale: nat)
    requires Reduced(a) && Reduced(b) && a.scale <= b.scale <= scale && At(a, scale) == At(b, scale)
    ensures a == b
  {
    AtFiner(a, b.scale, scale);
    Cancel(At(a, b.scale), b.units, Pow10(scale - b.scale));
    ReducedUnique(a, b);
  }

  lemma SameReduce(a: Amount)
    ensures Same(a, Reduce(a))
  {
    ReduceAt(a);
    assert Pow10(0) == 1;
    SameAt(a, Reduce(a), a.scale);
  }
}
