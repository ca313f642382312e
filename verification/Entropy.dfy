/** The extractor's entropy of pair frequencies, and its bounds from two laws of the logarithm. */
module Entropy {
  import opened Counting
  import opened RealArith

  const EPSILON := 0.000000000001

  predicate LnOfProduct(ln: real -> real, x: real, y: real) { ln(Mul(x, y)) == ln(x) + ln(y) }
  predicate LnBelowLine(ln: real -> real, x: real) { ln(x) <= x - 1.0 }

  /** All that is used of the natural logarithm. */
  ghost predicate IsLn(ln: real -> real) {
    && (forall x, y :: 0.0 < x && 0.0 < y ==> LnOfProduct(ln, x, y))
    && (forall x :: 0.0 < x ==> LnBelowLine(ln, x))
  }

  function Term(p: real, ln: real -> real): real { Mul(p, ln(p + EPSILON)) }

  /** Minus the sum of p ln(p + 1e-12) over the nonzero counts, with p the count's share of `total`. */
  function EntropyOf(c: seq<nat>, total: nat, ln: real -> real): real
    requires total > 0
  {
    if c == [] then 0.0
    else
      var n := |c| - 1;
      EntropyOf(c[..n], total, ln) - if c[n] > 0 then Term(Share(c[n], total), ln) else 0.0
  }

  lemma LnOfInverse(ln: real -> real, a: real, b: real)
    requires IsLn(ln) && 0.0 < a && 0.0 < b && Mul(a, b) == 1.0
    ensures ln(a) == -ln(b)
  {
    MulUnits(1.0);
    assert LnOfProduct(ln, 1.0, 1.0);
    assert LnOfProduct(ln, a, b);
  }

  /** A positive `z` that is 1 / (u q) in the logarithm and in products with p <= q. */
  lemma Reciprocal(ln: real -> real, p: real, q: real, u: real) returns (z: real)
    requires IsLn(ln) && 0.0 < p <= q && 0.0 < u
    ensures 0.0 < z && ln(q) == -(ln(u) + ln(z)) && Mul(p, z) <= 1.0 / u
  {
    hide Mul;
    var uq := Mul(u, q);
    MulPositive(u, q);
    MulInverse(uq);
    z := 1.0 / uq;
    LnOfInverse(ln, uq, z);
    assert LnOfProduct(ln, u, q);
    MulAssociates(u, q, z);
    InverseUnique(u, Mul(q, z));
    MulLe(z, p, q);
    MulCommutes(z, p);
    MulCommutes(z, q);
  }

  /** One step of Gibbs' inequality, against the uniform distribution on `u` outcomes. */
  lemma GibbsTerm(ln: real -> real, p: real, u: real)
    requires IsLn(ln) && 0.0 < p && 0.0 < u
    ensures -Term(p, ln) <= Mul(p, ln(u)) + 1.0 / u - p
  {
    hide Mul;
    var q := p + EPSILON;
    var z := Reciprocal(ln, p, q, u);
    assert LnBelowLine(ln, z);
    MulNegates(p, ln(q));
    MulLe(p, -ln(q), ln(u) + (z + -1.0));
    MulAdds(p, ln(u), z + -1.0);
    MulAdds(p, z, -1.0);
    MulUnits(p);
  }

  lemma LowerTerm(ln: real -> real, p: real)
    requires IsLn(ln) && 0.0 < p
    ensures -Term(p, ln) >= Mul(p, 1.0 - p - EPSILON)
  {
    hide Mul;
    var q := p + EPSILON;
    assert LnBelowLine(ln, q);
    MulLe(p, ln(q), q - 1.0);
    MulNegates(p, q - 1.0);
  }

  lemma {:induction false} GibbsSum(ln: real -> real, c: seq<nat>, total: nat, u: real)
    requires IsLn(ln) && total > 0 && 0.0 < u
    ensures EntropyOf(c, total, ln) <= Mul(Share(Sum(c), total), ln(u)) + Mul(Support(c) as real, 1.0 / u) - Share(Sum(c), total)
  {
    hide Mul, Share, Term, IsLn;
    if c == [] {
      ShareEnds(total);
      MulUnits(ln(u));
      MulUnits(1.0 / u);
    } else {
      var n := |c| - 1;
      GibbsSum(ln, c[..n], total, u);
      ShareAdds(Sum(c[..n]), c[n], total);
      MulAdds(ln(u), Share(Sum(c[..n]), total), Share(c[n], total));
      if c[n] > 0 {
        SharePositive(c[n], total);
        GibbsTerm(ln, Share(c[n], total), u);
        MulAdds(1.0 / u, Support(c[..n]) as real, 1.0);
        MulUnits(1.0 / u);
      } else {
        ShareEnds(total);
        MulUnits(ln(u));
      }
    }
  }

  /** Gibbs' inequality: the entropy is at most the logarithm of the number of distinct pairs. */
  lemma EntropyAtMost(ln: real -> real, c: seq<nat>)
    requires IsLn(ln) && Sum(c) > 0
    ensures Support(c) >= 1 && EntropyOf(c, Sum(c), ln) <= ln(Support(c) as real)
  {
    hide Mul, Share, IsLn, EntropyOf;
    SupportBounds(c);
    var u := Support(c) as real;
    GibbsSum(ln, c, Sum(c), u);
    ShareEnds(Sum(c));
    MulUnits(ln(u));
    MulInverse(u);
  }

  lemma {:induction false} LowerSum(ln: real -> real, c: seq<nat>, total: nat)
    requires IsLn(ln) && total > 0 && (forall i :: 0 <= i < |c| ==> c[i] <= total)
    ensures EntropyOf(c, total, ln) >= -Mul(Share(Sum(c), total), EPSILON)
  {
    hide Mul, Share, Term, IsLn;
    if c == [] {
      ShareEnds(total);
      MulUnits(EPSILON);
    } else {
      var n := |c| - 1;
      LowerSum(ln, c[..n], total);
      ShareAdds(Sum(c[..n]), c[n], total);
      MulAdds(EPSILON, Share(Sum(c[..n]), total), Share(c[n], total));
      ShareEnds(total);
      if c[n] > 0 {
        var p := Share(c[n], total);
        SharePositive(c[n], total);
        ShareOrder(c[n], total, total);
        LowerTerm(ln, p);
        MulLe(p, -EPSILON, 1.0 - p - EPSILON);
        MulNegates(p, EPSILON);
      } else {
        MulUnits(EPSILON);
      }
    }
  }

  lemma {:induction false} PartsAtMostSum(c: seq<nat>)
    ensures forall i :: 0 <= i < |c| ==> c[i] <= Sum(c)
  {
    if c != [] { PartsAtMostSum(c[..|c| - 1]); }
  }

  /** The code's guard against ln 0 can push the entropy below zero, but by no more than itself. */
  lemma EntropyAtLeast(ln: real -> real, c: seq<nat>)
    requires IsLn(ln) && Sum(c) > 0
    ensures EntropyOf(c, Sum(c), ln) >= -EPSILON
  {
    hide Mul, Share, IsLn, EntropyOf;
    PartsAtMostSum(c);
    LowerSum(ln, c, Sum(c));
    ShareEnds(Sum(c));
    MulUnits(EPSILON);
  }

  lemma {:induction false} NonNegativeSum(ln: real -> real, c: seq<nat>, total: nat)
    requires IsLn(ln) && 0 < total <= 1_000_000_000_000 && (forall i :: 0 <= i < |c| ==> c[i] < total)
    ensures EntropyOf(c, total, ln) >= 0.0
  {
    hide Mul, Share, Term, IsLn;
    if c != [] {
      var n := |c| - 1;
      NonNegativeSum(ln, c[..n], total);
      if c[n] > 0 {
        var p := Share(c[n], total);
        ShareOfOne(total);
        ShareAdds(c[n], 1, total);
        ShareOrder(c[n] + 1, total, total);
        ShareEnds(total);
        SharePositive(c[n], total);
        LowerTerm(ln, p);
        MulLe(p, 0.0, 1.0 - p - EPSILON);
        MulUnits(p);
      }
    }
  }

  /** With two distinct pairs, and fewer than 10^12 of them in all, the entropy is not negative. */
  lemma EntropyNonNegative(ln: real -> real, c: seq<nat>)
    requires IsLn(ln) && Support(c) >= 2 && Sum(c) <= 1_000_000_000_000
    ensures Sum(c) > 0 && EntropyOf(c, Sum(c), ln) >= 0.0
  {
    hide IsLn, EntropyOf;
    SupportBounds(c);
    forall i | 0 <= i < |c| ensures c[i] < Sum(c) {
      if c[i] > 0 { OthersTakeTheirShare(c, i); }
    }
    NonNegativeSum(ln, c, Sum(c));
  }
}
