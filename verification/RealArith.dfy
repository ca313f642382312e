/** Products and quotients of reals behind names, so that proofs meet them only through these facts. */
module RealArith {
  function Mul(a: real, b: real): real { a * b }

  function Share(n: nat, total: nat): real
    requires total > 0
  {
    n as real / total as real
  }

  lemma MulCommutes(a: real, b: real)
    ensures Mul(a, b) == Mul(b, a)
  {
  }

  lemma MulAdds(a: real, b: real, c: real)
    ensures Mul(a, b + c) == Mul(a, b) + Mul(a, c)
    ensures Mul(b + c, a) == Mul(b, a) + Mul(c, a)
  {
  }

  lemma MulUnits(a: real)
    ensures Mul(a, 1.0) == a && Mul(1.0, a) == a && Mul(a, 0.0) == 0.0 && Mul(0.0, a) == 0.0 && Mul(a, -1.0) == -a
  {
  }

  lemma MulNegates(a: real, b: real)
    ensures Mul(a, -b) == -Mul(a, b)
  {
  }

  lemma MulLe(p: real, a: real, b: real)
    requires 0.0 <= p && a <= b
    ensures Mul(p, a) <= Mul(p, b)
  {
    assert p * b - p * a == p * (b - a);
  }

  lemma MulPositive(a: real, b: real)
    requires 0.0 < a && 0.0 < b
    ensures 0.0 < Mul(a, b)
  {
  }

  lemma MulInverse(u: real)
    requires 0.0 < u
    ensures 0.0 < 1.0 / u && Mul(u, 1.0 / u) == 1.0
  {
  }

  lemma MulAssociates(a: real, b: real, c: real)
    ensures Mul(Mul(a, b), c) == Mul(a, Mul(b, c))
  {
  }

  lemma InverseUnique(u: real, a: real)
    requires 0.0 < u && Mul(u, a) == 1.0
    ensures a == 1.0 / u
  {
  }

  lemma ShareAdds(m: nat, n: nat, total: nat)
    requires total > 0
    ensures Share(m + n, total) == Share(m, total) + Share(n, total)
  {
  }

  lemma ShareEnds(total: nat)
    requires total > 0
    ensures Share(0, total) == 0.0 && Share(total, total) == 1.0
  {
  }

  lemma ShareOrder(m: nat, n: nat, total: nat)
    requires total > 0 && m <= n
    ensures Share(m, total) <= Share(n, total)
    ensures m < n ==> Share(m, total) < Share(n, total)
  {
  }

  lemma SharePositive(n: nat, total: nat)
    requires total > 0 && n > 0
    ensures 0.0 < Share(n, total)
  {
  }

  lemma MulLess(a: real, b: real, t: real)
    requires a < b && 0.0 < t
    ensures a * t < b * t
  {
    assert b * t - a * t == (b - a) * t;
  }

  /** One part in `total` of at most 10^12 is at least 10^-12. */
  lemma ShareOfOne(total: nat)
    requires 0 < total <= 1_000_000_000_000
    ensures Share(1, total) >= 0.000000000001
  {
    var t, s := total as real, Share(1, total);
    assert s * t == 1.0;
    if s < 0.000000000001 {
      MulLess(s, 0.000000000001, t);
    }
  }
}
