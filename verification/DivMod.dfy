/** Division and remainder by variable divisors. */
module DivMod {

  function Quotient(a: nat, b: nat): nat
    requires b > 0
  {
    a / b
  }

  function Remainder(a: nat, b: nat): nat
    requires b > 0
  {
    a % b
  }

  lemma MultipleIs(p: int, d: int)
    requires p >= 0
    ensures d >= 1 ==> p * d >= p
    ensures d <= -1 ==> p * d <= -p
  {
  }

  lemma QuotientIs(b: nat, p: nat, q: nat, r: nat)
    requires b == p * q + r && r < p
    ensures b / p == q && b % p == r
  {
    var d := b / p - q;
    assert b == p * (b / p) + b % p;
    assert p * d == p * (b / p) - p * q;
    MultipleIs(p, d);
  }

  lemma QuotientOf(v: nat, b: nat)
    requires b > 0
    ensures v == b * (v / b) + v % b && v % b < b
  {
  }

  lemma Regroup(b: nat, p: nat, q: nat, r: nat, e: nat)
    ensures b * (p * q + r) + e == b * p * q + (b * r + e)
  {
  }

  lemma Below(b: nat, p: nat, r: nat, e: nat)
    requires r < p && e < b
    ensures b * r + e < b * p
  {
    assert b * p == b * r + b * (p - r);
    MultipleIs(b, p - r);
  }

  /** Dividing by `m`, which is `b` times `p`, is dividing by one after the other. */
  lemma TwoSteps(v: nat, b: nat, p: nat, m: nat)
    requires b > 0 && p > 0 && m == b * p
    ensures m > 0
    ensures v / m == v / b / p
    ensures v % m / b == v / b % p && v % m % b == v % b
  {
    MultipleIs(b, p);
    var w, e := v / b, v % b;
    QuotientOf(v, b);
    var q, r := w / p, w % p;
    QuotientOf(w, p);
    Recombine(v, b, p, m, w, e, q, r);
  }

  lemma Recombine(v: nat, b: nat, p: nat, m: nat, w: nat, e: nat, q: nat, r: nat)
    requires v == b * w + e && e < b && w == p * q + r && r < p && m == b * p
    ensures m > 0 && v / m == q && v % m / b == r && v % m % b == e
  {
    Regroup(b, p, q, r, e);
    Below(b, p, r, e);
    var x := b * r + e;
    QuotientIs(v, m, q, x);
    QuotientIs(x, b, r, e);
  }
}
