/** Division with remainder and common multiples, from the ground up. */
module Divisibility {

  lemma MulAtLeast(n: int, t: int)
    requires n > 0
    ensures t >= 1 ==> n * t >= n
    ensures t <= -1 ==> n * t <= -n
  {
    if t >= 1 {
      assert n * t == n * (t - 1) + n;
      assert n * (t - 1) >= 0;
    } else if t <= -1 {
      assert n * t == n * (t + 1) - n;
      assert n * (t + 1) <= 0;
    }
  }

  /** Quotient and remainder are unique. */
  lemma DivModUnique(x: int, n: int, q: int, a: int)
    requires n > 0 && 0 <= a < n && x == n * q + a
    ensures x / n == q && x % n == a
  {
    var t := q - x / n;
    assert n * t == n * q - n * (x / n);
    MulAtLeast(n, t);
  }

  /** Walking round a ring of `n` places. */
  lemma NextPlace(k: nat, n: nat)
    requires n > 0
    ensures (k + 1) % n == if k % n == n - 1 then 0 else k % n + 1
  {
    if k % n == n - 1 {
      assert k + 1 == n * (k / n + 1) + 0 by {
        assert k == n * (k / n) + k % n;
        assert n * (k / n + 1) == n * (k / n) + n;
      }
      DivModUnique(k + 1, n, k / n + 1, 0);
    } else {
      DivModUnique(k + 1, n, k / n, k % n + 1);
    }
  }

  predicate Multiple(b: int, a: nat)
    requires a > 0
  {
    b % a == 0
  }

  lemma MultipleIs(b: int, a: nat, k: int)
    requires a > 0 && b == a * k
    ensures Multiple(b, a) && b / a == k
  {
    DivModUnique(b, a, k, 0);
  }

  lemma MultipleMinus(b: int, c: int, a: nat)
    requires a > 0 && Multiple(b, a) && Multiple(c, a)
    ensures Multiple(b - c, a) && (b - c) / a == b / a - c / a
  {
    assert a * (b / a - c / a) == a * (b / a) - a * (c / a);
    MultipleIs(b - c, a, b / a - c / a);
  }

  lemma MultipleOfProduct(a: nat, k: int)
    requires a > 0
    ensures Multiple(a * k, a) && Multiple(k * a, a)
  {
    MultipleIs(a * k, a, k);
  }

  lemma MultipleTransitive(c: int, b: nat, a: nat)
    requires a > 0 && b > 0 && Multiple(c, b) && Multiple(b, a)
    ensures Multiple(c, a)
  {
    var k, m := c / b, b / a;
    assert c == (a * m) * k;
    assert (a * m) * k == a * (m * k);
    MultipleIs(c, a, m * k);
  }

  predicate CommonMultiple(m: nat, a: nat, b: nat)
    requires a > 0 && b > 0
  {
    m > 0 && Multiple(m, a) && Multiple(m, b)
  }

  /** The first common multiple at or after `m`. */
  function FirstCommonMultiple(m: nat, a: nat, b: nat): (l: nat)
    requires a > 0 && b > 0 && 0 < m <= a * b
    ensures m <= l <= a * b && CommonMultiple(l, a, b)
    ensures forall k: nat :: m <= k < l ==> !CommonMultiple(k, a, b)
    decreases a * b - m
  {
    ProductIsCommon(a, b);
    if CommonMultiple(m, a, b) then m else FirstCommonMultiple(m + 1, a, b)
  }

  lemma ProductIsCommon(a: nat, b: nat)
    requires a > 0 && b > 0
    ensures CommonMultiple(a * b, a, b) && a * b > 0
  {
    MultipleOfProduct(a, b);
    MultipleOfProduct(b, a);
    assert a * b > 0;
  }

  /** The least common multiple. */
  function Lcm(a: nat, b: nat): (l: nat)
    requires a > 0 && b > 0
    ensures CommonMultiple(l, a, b)
    ensures forall k: nat :: 0 < k < l ==> !CommonMultiple(k, a, b)
  {
    ProductIsCommon(a, b);
    FirstCommonMultiple(1, a, b)
  }

  /** It divides every common multiple: the remainder would be a smaller one. */
  lemma LcmDividesCommonMultiples(a: nat, b: nat, c: nat)
    requires a > 0 && b > 0 && Multiple(c, a) && Multiple(c, b)
    ensures Multiple(c, Lcm(a, b))
  {
    hide Multiple;
    var l := Lcm(a, b);
    var q, r := c / l, c % l;
    assert c == l * q + r;
    MultipleOfProduct(l, q);
    MultipleTransitive(l * q, l, a);
    MultipleTransitive(l * q, l, b);
    MultipleMinus(c, l * q, a);
    MultipleMinus(c, l * q, b);
    assert r > 0 ==> CommonMultiple(r, a, b);
    MultipleIs(c, l, q);
  }

  predicate AllPositive(ds: seq<nat>) {
    forall i :: 0 <= i < |ds| ==> ds[i] > 0
  }

  /** The least common multiple of all, one after the other. */
  function LcmOf(ds: seq<nat>): (l: nat)
    requires AllPositive(ds)
    ensures l > 0
  {
    if ds == [] then 1 else Lcm(LcmOf(ds[..|ds| - 1]), ds[|ds| - 1])
  }

  lemma {:induction false} LcmOfIsMultiple(ds: seq<nat>, i: nat)
    requires AllPositive(ds) && i < |ds|
    ensures Multiple(LcmOf(ds), ds[i])
  {
    hide Multiple;
    var front := ds[..|ds| - 1];
    if i < |front| {
      LcmOfIsMultiple(front, i);
      MultipleTransitive(LcmOf(ds), LcmOf(front), front[i]);
    }
  }

  /** A number is a multiple of all of them iff it is one of their least common multiple. */
  lemma {:induction false} CommonIffMultipleOfLcm(ds: seq<nat>, c: nat)
    requires AllPositive(ds)
    ensures (forall i :: 0 <= i < |ds| ==> Multiple(c, ds[i])) <==> Multiple(c, LcmOf(ds))
  {
    hide Multiple, Lcm;
    if ds == [] {
      MultipleIs(c, 1, c);
    } else {
      var front := ds[..|ds| - 1];
      CommonIffMultipleOfLcm(front, c);
      if forall i :: 0 <= i < |ds| ==> Multiple(c, ds[i]) {
        LcmDividesCommonMultiples(LcmOf(front), ds[|ds| - 1], c);
      } else if Multiple(c, LcmOf(ds)) {
        forall i | 0 <= i < |ds|
          ensures Multiple(c, ds[i])
        {
          LcmOfIsMultiple(ds, i);
          MultipleTransitive(c, LcmOf(ds), ds[i]);
        }
      }
    }
  }

  /** Division towards zero. */
  function Truncated(a: int, b: nat): int
    requires b > 0
  {
    if a >= 0 then a / b else -((-a) / b)
  }
}
