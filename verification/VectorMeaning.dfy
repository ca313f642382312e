/** The feature vectors entry by entry, in terms of positions in the window alone. */
module VectorMeaning {
  import opened Common
  import opened Trace
  import opened Alphabet
  import opened Counting
  import opened RealArith
  import opened Entropy
  import opened Features
  import opened FeatureTheorems

  // ---- counts are numbers of positions ----

  /** The pair that ends at position `i`. */
  function PairOf(s: seq<Symbol>, i: nat): (Symbol, Symbol)
    requires 0 < i < |s|
  {
    (s[i - 1], s[i])
  }

  /** Where `a` is directly followed by `b`. */
  function PairAt(s: seq<Symbol>, a: int, b: int): set<nat> { set i: nat | 0 < i < |s| && PairOf(s, i) == (a, b) }

  /** Where `a` is followed by anything. */
  function Left(s: seq<Symbol>, a: int): set<nat> { set i: nat | 0 < i < |s| && PairOf(s, i).0 == a }

  function PositionsOf(s: seq<int>, x: int): set<nat> { set i: nat | i < |s| && s[i] == x }

  function OfClass(rs: seq<Record>, argClass: int): set<nat> { set i: nat | i < |rs| && rs[i].argClass == argClass }

  function PairSet(s: seq<Symbol>): set<(Symbol, Symbol)> { set i: nat | 0 < i < |s| :: PairOf(s, i) }

  lemma PairPositionsStep(s: seq<Symbol>, a: int, b: int)
    requires |s| >= 2
    ensures var n := |s| - 1;
            && |PairAt(s, a, b)| == |PairAt(s[..n], a, b)| + Bit(s[n - 1] == a && s[n] == b)
            && |Left(s, a)| == |Left(s[..n], a)| + Bit(s[n - 1] == a)
  {
    var n := |s| - 1;
    assert forall i: nat :: 0 < i < n ==> PairOf(s[..n], i) == PairOf(s, i);
    assert PairAt(s, a, b) == PairAt(s[..n], a, b) + if s[n - 1] == a && s[n] == b then {n} else {};
    assert Left(s, a) == Left(s[..n], a) + if s[n - 1] == a then {n} else {};
  }

  lemma {:induction false} PairsArePositions(s: seq<Symbol>, a: int, b: int)
    ensures Pairs(s, a, b) == |PairAt(s, a, b)|
    ensures Outgoing(s, a) == |Left(s, a)|
  {
    if |s| < 2 {
      assert PairAt(s, a, b) == {} && Left(s, a) == {};
    } else {
      hide PairAt, Left;
      PairsArePositions(s[..|s| - 1], a, b);
      PairPositionsStep(s, a, b);
    }
  }

  lemma {:induction false} OccurrencesArePositions(s: seq<int>, x: int)
    ensures Occurrences(s, x) == |PositionsOf(s, x)|
  {
    if s == [] {
      assert PositionsOf(s, x) == {};
    } else {
      var n := |s| - 1;
      OccurrencesArePositions(s[..n], x);
      assert PositionsOf(s, x) == PositionsOf(s[..n], x) + if s[n] == x then {n} else {};
    }
  }

  lemma {:induction false} ClassCountIsPositions(rs: seq<Record>, argClass: int)
    ensures ClassCount(rs, argClass) == |OfClass(rs, argClass)|
  {
    if rs == [] {
      assert OfClass(rs, argClass) == {};
    } else {
      var n := |rs| - 1;
      ClassCountIsPositions(rs[..n], argClass);
      assert OfClass(rs, argClass) == OfClass(rs[..n], argClass) + if rs[n].argClass == argClass then {n} else {};
    }
  }

  // ---- distinct pairs ----

  lemma SupportExtends(s: seq<Symbol>, k: nat)
    requires k > 0
    ensures Support(Cells(s, k)) == Support(Cells(s, k - 1)) + Bit(Pairs(s, (k - 1) / 24, (k - 1) % 24) > 0)
  {
    assert Cells(s, k)[..k - 1] == Cells(s, k - 1);
  }

  lemma NoSupport(s: seq<Symbol>)
    ensures Support(Cells(s, 0)) == 0
  {
  }

  lemma {:induction false} SupportStep(s: seq<Symbol>, k: nat)
    requires |s| >= 2
    ensures var n := |s| - 1;
            Support(Cells(s, k)) == Support(Cells(s[..n], k)) +
            Bit(24 * s[n - 1] + s[n] < k && Pairs(s[..n], s[n - 1], s[n]) == 0)
  {
    hide Support, Cells;
    var n := |s| - 1;
    if k == 0 {
      NoSupport(s);
      NoSupport(s[..n]);
    } else {
      SupportStep(s, k - 1);
      SupportExtends(s, k);
      SupportExtends(s[..n], k);
      FlatIndex(k - 1, s[n - 1], s[n]);
    }
  }

  lemma PairSetStep(s: seq<Symbol>)
    requires |s| >= 2
    ensures var n := |s| - 1;
            PairSet(s) == PairSet(s[..n]) + {(s[n - 1], s[n])}
            && |PairSet(s)| == |PairSet(s[..n])| + Bit((s[n - 1], s[n]) !in PairSet(s[..n]))
  {
    var n := |s| - 1;
    assert forall i: nat :: 0 < i < n ==> PairOf(s[..n], i) == PairOf(s, i);
    var p := PairOf(s, n);
    assert PairSet(s) == PairSet(s[..n]) + {p};
    if p in PairSet(s[..n]) { assert PairSet(s) == PairSet(s[..n]); }
  }

  /** The number of nonzero cells is that of distinct adjacent pairs. */
  lemma {:induction false} SupportIsPairSet(s: seq<Symbol>)
    ensures Support(Cells(s, 576)) == |PairSet(s)|
    ensures forall a, b :: (a, b) in PairSet(s) <==> Pairs(s, a, b) > 0
  {
    hide Support, Cells;
    if |s| < 2 {
      assert PairSet(s) == {};
      NoPairsNoSupport(s);
    } else {
      hide PairSet;
      SupportIsPairSet(s[..|s| - 1]);
      SupportStep(s, 576);
      PairSetStep(s);
    }
  }

  lemma NoPairsNoSupport(s: seq<Symbol>)
    requires |s| < 2
    ensures Support(Cells(s, 576)) == 0
  {
    GrandTotal(s);
    SupportBounds(Cells(s, 576));
  }

  // ---- the entropy as a sum over positions ----

  function Weighted(c: seq<nat>, g: seq<real>): real
    requires |c| == |g|
  {
    if c == [] then 0.0
    else
      var n := |c| - 1;
      Weighted(c[..n], g[..n]) + Mul(c[n] as real, g[n])
  }

  function Logs(c: seq<nat>, total: nat, ln: real -> real): seq<real>
    requires total > 0
  {
    seq(|c|, i requires 0 <= i < |c| => ln(c[i] as real / total as real + 0.000000000001))
  }

  lemma TermTimesTotal(n: nat, total: nat, ln: real -> real)
    requires total > 0
    ensures Mul(Term(Share(n, total), ln), total as real) == Mul(n as real, ln(n as real / total as real + 0.000000000001))
  {
    var p, l := Share(n, total), ln(n as real / total as real + 0.000000000001);
    assert Term(p, ln) == p * l;
    assert p * total as real == n as real;
    assert (p * l) * total as real == (p * total as real) * l;
  }

  lemma {:induction false} EntropyIsWeighted(c: seq<nat>, total: nat, ln: real -> real)
    requires total > 0
    ensures Mul(EntropyOf(c, total, ln), total as real) == -Weighted(c, Logs(c, total, ln))
  {
    hide Mul, Share, Term;
    if c == [] {
      MulUnits(total as real);
    } else {
      var n := |c| - 1;
      EntropyIsWeighted(c[..n], total, ln);
      assert Logs(c, total, ln)[..n] == Logs(c[..n], total, ln);
      TermTimesTotal(c[n], total, ln);
      MulUnits(ln(c[n] as real / total as real + 0.000000000001));
      MulAdds(total as real, EntropyOf(c[..n], total, ln), -Term(Share(c[n], total), ln));
      MulNegates(total as real, Term(Share(c[n], total), ln));
      MulCommutes(total as real, Term(Share(c[n], total), ln));
      MulCommutes(total as real, -Term(Share(c[n], total), ln));
    }
  }

  function CellOf(a: Symbol, b: Symbol): (k: nat)
    ensures k < 576
  {
    24 * (a as int) + b as int
  }

  /** The weights of the pairs at the positions of `s`, added up. */
  function AtPositions(s: seq<Symbol>, g: seq<real>): real
    requires |g| == 576
  {
    if |s| < 2 then 0.0
    else
      var n := |s| - 1;
      AtPositions(s[..n], g) + g[CellOf(s[n - 1], s[n])]
  }

  lemma WeightedExtends(s: seq<Symbol>, g: seq<real>, k: nat)
    requires 0 < k <= |g|
    ensures Weighted(Cells(s, k), g[..k]) == Weighted(Cells(s, k - 1), g[..k - 1]) + Mul(Pairs(s, (k - 1) / 24, (k - 1) % 24) as real, g[k - 1])
  {
    assert Cells(s, k)[..k - 1] == Cells(s, k - 1) && g[..k][..k - 1] == g[..k - 1];
  }

  lemma OneMore(n: nat, x: real)
    ensures Mul((n + 1) as real, x) == Mul(n as real, x) + x
  {
  }

  lemma NothingWeighted(s: seq<Symbol>, g: seq<real>)
    ensures Weighted(Cells(s, 0), g[..0]) == 0.0
  {
  }

  lemma {:induction false} WeightedStep(s: seq<Symbol>, g: seq<real>, k: nat)
    requires |s| >= 2 && k <= |g| == 576
    ensures var n := |s| - 1; var cell := CellOf(s[n - 1], s[n]);
            Weighted(Cells(s, k), g[..k]) == Weighted(Cells(s[..n], k), g[..k]) + if cell < k then g[cell] else 0.0
  {
    hide Weighted, Cells, Mul;
    var n := |s| - 1;
    if k == 0 {
      NothingWeighted(s, g);
      NothingWeighted(s[..n], g);
    } else {
      WeightedStep(s, g, k - 1);
      WeightedExtends(s, g, k);
      WeightedExtends(s[..n], g, k);
      FlatIndex(k - 1, s[n - 1], s[n]);
      OneMore(Pairs(s[..n], (k - 1) / 24, (k - 1) % 24), g[k - 1]);
    }
  }

  lemma {:induction false} WeightedOfZeros(c: seq<nat>, g: seq<real>)
    requires |c| == |g| && forall i :: 0 <= i < |c| ==> c[i] == 0
    ensures Weighted(c, g) == 0.0
  {
    if c != [] { WeightedOfZeros(c[..|c| - 1], g[..|c| - 1]); }
  }

  lemma {:induction false} WeightedIsAtPositions(s: seq<Symbol>, g: seq<real>)
    requires |g| == 576
    ensures Weighted(Cells(s, 576), g) == AtPositions(s, g)
  {
    hide Weighted;
    assert g[..576] == g;
    if |s| < 2 {
      WeightedOfZeros(Cells(s, 576), g);
    } else {
      WeightedIsAtPositions(s[..|s| - 1], g);
      WeightedStep(s, g, 576);
    }
  }

  /** How frequent the pair that ends at position `i` is among all adjacent pairs. */
  function Frequency(s: seq<Symbol>, i: nat): real
    requires 0 < i < |s|
  {
    |PairAt(s, s[i - 1], s[i])| as real / (|s| - 1) as real
  }

  /** The logarithms of the frequencies, guarded, over the first `n` positions. */
  function LogSum(s: seq<Symbol>, n: nat, ln: real -> real): real
    requires n <= |s|
  {
    if n < 2 then 0.0 else LogSum(s, n - 1, ln) + ln(Frequency(s, n - 1) + 0.000000000001)
  }

  lemma {:induction false} AtPositionsIsLogSum(s: seq<Symbol>, n: nat, ln: real -> real)
    requires n <= |s| && |s| >= 2
    ensures AtPositions(s[..n], Logs(Cells(s, 576), |s| - 1, ln)) == LogSum(s, n, ln)
  {
    hide Pairs;
    if n >= 2 {
      AtPositionsIsLogSum(s, n - 1, ln);
      assert s[..n][..n - 1] == s[..n - 1];
      var a, b := s[n - 2], s[n - 1];
      FlatIndex(CellOf(a, b), a, b);
      PairsArePositions(s, a, b);
    }
  }

  /**
   * The entropy, times the number of adjacent pairs, is minus the sum over all positions of the logarithm of the
   * frequency of the pair there, guarded by 1e-12.
   */
  lemma EntropyOverPositions(s: seq<Symbol>, ln: real -> real)
    requires |s| >= 2
    ensures Mul(PairEntropy(s, 576, ln), (|s| - 1) as real) == -LogSum(s, |s|, ln)
  {
    hide EntropyOf, Weighted, Logs, Mul;
    var g := Logs(Cells(s, 576), |s| - 1, ln);
    LogsLength(Cells(s, 576), |s| - 1, ln);
    EntropyIsWeighted(Cells(s, 576), |s| - 1, ln);
    WeightedIsAtPositions(s, g);
    AtPositionsIsLogSum(s, |s|, ln);
    assert s[..|s|] == s;
  }

  lemma LogsLength(c: seq<nat>, total: nat, ln: real -> real)
    requires total > 0
    ensures |Logs(c, total, ln)| == |c|
  {
  }

  // ---- equally frequent pairs ----

  lemma {:induction false} EqualLogSum(s: seq<Symbol>, n: nat, f: real, ln: real -> real)
    requires 1 <= n <= |s| && forall i: nat :: 0 < i < |s| ==> Frequency(s, i) == f
    ensures LogSum(s, n, ln) == Mul((n - 1) as real, ln(f + 0.000000000001))
  {
    hide Frequency, Mul;
    if n >= 2 {
      EqualLogSum(s, n - 1, f, ln);
      OneMore(n - 2, ln(f + 0.000000000001));
    } else {
      MulUnits(ln(f + 0.000000000001));
    }
  }

  lemma {:induction false} SumOfEqualCounts(c: seq<nat>, m: nat)
    requires forall i :: 0 <= i < |c| ==> c[i] == 0 || c[i] == m
    ensures Sum(c) == m * Support(c)
  {
    if c != [] {
      var n := |c| - 1;
      SumOfEqualCounts(c[..n], m);
      if c[n] > 0 { assert m * (Support(c[..n]) + 1) == m * Support(c[..n]) + m; }
    }
  }

  /** Each of the `u` distinct pairs ends at the same number of positions. */
  predicate EquallyFrequent(s: seq<Symbol>) {
    forall i: nat, j: nat :: 0 < i < |s| && 0 < j < |s| ==> |PairAt(s, s[i - 1], s[i])| == |PairAt(s, s[j - 1], s[j])|
  }

  lemma EqualCounts(s: seq<Symbol>)
    requires |s| >= 2 && EquallyFrequent(s)
    ensures |s| - 1 == |PairAt(s, s[0], s[1])| * |PairSet(s)| && |PairSet(s)| > 0
  {
    hide Support;
    var m, c := |PairAt(s, s[0], s[1])|, Cells(s, 576);
    SupportIsPairSet(s);
    forall k | 0 <= k < 576 ensures c[k] == 0 || c[k] == m {
      if c[k] > 0 {
        assert (k / 24, k % 24) in PairSet(s);
        var i: nat :| 0 < i < |s| && PairOf(s, i) == (k / 24, k % 24);
        PairsArePositions(s, k / 24, k % 24);
      }
    }
    SumOfEqualCounts(c, m);
    GrandTotal(s);
  }

  lemma QuotientOfProduct(m: nat, u: nat, t: nat)
    requires t > 0 && t == m * u
    ensures u > 0 && m as real / t as real == 1.0 / u as real
  {
    assert u > 0;
    assert t as real == m as real * u as real;
    assert m as real / t as real * u as real == 1.0;
  }

  lemma MulCancels(a: real, b: real, t: real)
    requires t > 0.0 && Mul(a, t) == Mul(b, t)
    ensures a == b
  {
    assert (a - b) * t == 0.0;
  }

  /** If all distinct pairs are equally frequent, the entropy is minus the logarithm of one's share, guarded. */
  lemma EntropyOfEqualPairs(s: seq<Symbol>, ln: real -> real)
    requires |s| >= 2 && EquallyFrequent(s)
    ensures |PairSet(s)| > 0
    ensures PairEntropy(s, 576, ln) == -ln(1.0 / |PairSet(s)| as real + 0.000000000001)
  {
    hide PairEntropy, LogSum, Mul, PairSet;
    EqualCounts(s);
    EntropyOverPositions(s, ln);
    var m, u, t := |PairAt(s, s[0], s[1])|, |PairSet(s)|, |s| - 1;
    QuotientOfProduct(m, u, t);
    var l := ln(1.0 / u as real + 0.000000000001);
    forall i: nat | 0 < i < |s| ensures Frequency(s, i) == 1.0 / u as real { }
    EqualLogSum(s, |s|, 1.0 / u as real, ln);
    MulNegates(t as real, l);
    MulCommutes(t as real, -l);
    MulCancels(PairEntropy(s, 576, ln), -l, t as real);
  }

  // ---- every entry ----

  /** Each entry of the block, times how often its row's letter is left, is how often its column's letter follows it. */
  ghost predicate CellsMean(v: seq<real>, s: seq<Symbol>)
    requires |v| == 594
  {
    forall a: Symbol, b: Symbol ::
      Mul(v[24 * a + b], |Left(s, a)| as real) == |PairAt(s, a, b)| as real && (Left(s, a) == {} ==> v[24 * a + b] == 0.0)
  }

  /** Each of the last twelve entries, times the number of records, is how many fall in its bucket. */
  ghost predicate RatiosMean(v: seq<real>, bs: seq<Bucket>)
    requires |v| == 594
  {
    forall b: Bucket :: Mul(v[582 + b], |bs| as real) == |PositionsOf(bs, b)| as real
  }

  /** All entries of a vector, for the symbols `s` and buckets `bs` of the records `rs` and the two classes counted. */
  ghost predicate Means(v: seq<real>, rs: seq<Record>, s: seq<Symbol>, bs: seq<Bucket>, fileClass: int, netClass: int, ln: real -> real) {
    && |v| == 594 && |s| == |bs| == |rs| > 0
    && CellsMean(v, s)
    && v[576] == |PairSet(s)| as real
    && (if |s| == 1 then v[577] == 0.0 else Mul(v[577], (|s| - 1) as real) == -LogSum(s, |s|, ln))
    && Mul(v[578], |s| as real) == |OfClass(rs, fileClass)| as real
    && Mul(v[579], |s| as real) == |OfClass(rs, netClass)| as real
    && v[580] == rs[|rs| - 1].deltaUs as real / 1_000_000.0
    && Mul(v[581], |s| as real) == v[580]
    && RatiosMean(v, bs)
  }

  lemma ShareTimesTotal(n: nat, total: nat)
    requires total > 0
    ensures Mul(Share(n, total), total as real) == n as real
  {
  }

  lemma CellMeans(s: seq<Symbol>, a: Symbol, b: Symbol)
    ensures Mul(Markov(s, 576)[24 * a + b], |Left(s, a)| as real) == |PairAt(s, a, b)| as real
    ensures Left(s, a) == {} ==> Markov(s, 576)[24 * a + b] == 0.0
  {
    hide Mul, Pairs, Outgoing, PairAt, Left;
    MarkovEntry(s, a, b);
    PairsArePositions(s, a, b);
    FlatIndex(24 * a + b, a, b);
  }

  lemma BlockMeans(v: seq<real>, s: seq<Symbol>)
    requires |v| == 594 && v[..576] == Markov(s, 576)
    ensures CellsMean(v, s)
  {
    hide Mul, Markov, PairAt, Left;
    forall a: Symbol, b: Symbol
      ensures Mul(v[24 * a + b], |Left(s, a)| as real) == |PairAt(s, a, b)| as real && (Left(s, a) == {} ==> v[24 * a + b] == 0.0)
    {
      CellMeans(s, a, b);
      assert v[24 * a + b] == v[..576][24 * a + b];
    }
  }

  lemma BucketsMean(v: seq<real>, bs: seq<Bucket>)
    requires |v| == 594 && bs != [] && v[582..] == BucketRatios(bs, 12)
    ensures RatiosMean(v, bs)
  {
    hide Mul, BucketRatios, PositionsOf;
    forall b: Bucket ensures Mul(v[582 + b], |bs| as real) == |PositionsOf(bs, b)| as real {
      RatioMeans(bs, b);
      assert v[582 + b] == v[582..][b];
    }
  }

  lemma StatisticsMean(rs: seq<Record>, s: seq<Symbol>, fileClass: int, ln: real -> real)
    requires |s| == |rs| > 0
    ensures Support(Cells(s, 576)) as real == |PairSet(s)| as real
    ensures if |s| == 1 then PairEntropy(s, 576, ln) == 0.0 else Mul(PairEntropy(s, 576, ln), (|s| - 1) as real) == -LogSum(s, |s|, ln)
    ensures Mul(Share(ClassCount(rs, fileClass), |s|), |s| as real) == |OfClass(rs, fileClass)| as real
  {
    hide PairEntropy, Support, Share, Cells, Mul, PairSet, OfClass, ClassCount, LogSum;
    SupportIsPairSet(s);
    if |s| == 1 { SingleRecord(s, ln); } else { EntropyOverPositions(s, ln); }
    ClassCountIsPositions(rs, fileClass);
    ShareTimesTotal(ClassCount(rs, fileClass), |s|);
  }

  lemma PartsMean(rs: seq<Record>, s: seq<Symbol>, bs: seq<Bucket>, fileClass: int, netClass: int, ln: real -> real)
    requires |s| == |bs| == |rs| > 0
    ensures Means(Markov(s, 576) + Stats(s, ClassCount(rs, fileClass), ClassCount(rs, netClass), DurationSec(rs), ln) + BucketRatios(bs, 12),
                  rs, s, bs, fileClass, netClass, ln)
  {
    hide PairEntropy, Support, Share, Cells, Markov, Mul, Stats, BucketRatios, PairSet, OfClass, ClassCount, LogSum, CellsMean, RatiosMean;
    var f, n, d := ClassCount(rs, fileClass), ClassCount(rs, netClass), DurationSec(rs);
    var v := Markov(s, 576) + Stats(s, f, n, d, ln) + BucketRatios(bs, 12);
    Layout(s, f, n, d, ln, bs);
    BlockMeans(v, s);
    BucketsMean(v, bs);
    MeanDuration(s, f, n, d, ln, bs);
    StatisticsMean(rs, s, fileClass, ln);
    StatisticsMean(rs, s, netClass, ln);
  }

  lemma MeanDuration(s: seq<Symbol>, f: nat, n: nat, d: real, ln: real -> real, bs: seq<Bucket>)
    requires s != [] && bs != []
    ensures var v := Markov(s, 576) + Stats(s, f, n, d, ln) + BucketRatios(bs, 12);
            |v| == 594 && Mul(v[581], |s| as real) == d
  {
    hide PairEntropy, Support, Share, Cells, Markov, BucketRatios;
    Layout(s, f, n, d, ln, bs);
    MarkovLengths(s, bs);
    assert (Markov(s, 576) + Stats(s, f, n, d, ln) + BucketRatios(bs, 12))[581] == Stats(s, f, n, d, ln)[5] == d / |s| as real;
  }

  lemma RatioMeans(bs: seq<Bucket>, b: Bucket)
    requires bs != []
    ensures |BucketRatios(bs, 12)| == 12 && Mul(BucketRatios(bs, 12)[b], |bs| as real) == |PositionsOf(bs, b)| as real
  {
    hide Share, Mul;
    OccurrencesArePositions(bs, b);
    ShareTimesTotal(Occurrences(bs, b), |bs|);
  }

  /** Every entry of the server's vector, by positions in the window. */
  lemma JavaVectorMeans(rs: seq<Record>, ln: real -> real)
    requires rs != []
    ensures Means(JavaVector(rs, ln), rs, JavaSymbols(rs), JavaBuckets(rs), 0, 1, ln)
  {
    hide Means, JavaSymbol, JavaBucket;
    PartsMean(rs, JavaSymbols(rs), JavaBuckets(rs), 0, 1, ln);
  }

  /** And of the training tool's. */
  lemma PyVectorMeans(rs: seq<Record>, ln: real -> real)
    requires rs != []
    ensures Means(PyVector(rs, ln), rs, PySymbols(rs), PyBuckets(rs), 1, 2, ln)
  {
    hide Means, PySymbol, PyBucket;
    PartsMean(rs, PySymbols(rs), PyBuckets(rs), 1, 2, ln);
  }

  /** Entry 577 of a window whose distinct pairs are equally frequent. */
  lemma EntropyEntry(rs: seq<Record>, ln: real -> real)
    requires |rs| >= 2
    ensures var v, s := JavaVector(rs, ln), JavaSymbols(rs);
            |v| == 594 && (EquallyFrequent(s) ==> v[576] > 0.0 && v[577] == -ln(1.0 / v[576] + 0.000000000001))
    ensures var v, s := PyVector(rs, ln), PySymbols(rs);
            |v| == 594 && (EquallyFrequent(s) ==> v[576] > 0.0 && v[577] == -ln(1.0 / v[576] + 0.000000000001))
  {
    hide PairEntropy, Support, Share, Cells, Markov, Stats, BucketRatios, EquallyFrequent, PairSet, ClassCount, JavaSymbol, PySymbol;
    Layout(JavaSymbols(rs), ClassCount(rs, 0), ClassCount(rs, 1), DurationSec(rs), ln, JavaBuckets(rs));
    Layout(PySymbols(rs), ClassCount(rs, 1), ClassCount(rs, 2), DurationSec(rs), ln, PyBuckets(rs));
    SupportIsPairSet(JavaSymbols(rs));
    SupportIsPairSet(PySymbols(rs));
    if EquallyFrequent(JavaSymbols(rs)) { EntropyOfEqualPairs(JavaSymbols(rs), ln); }
    if EquallyFrequent(PySymbols(rs)) { EntropyOfEqualPairs(PySymbols(rs), ln); }
  }
}
