/** What is true of every feature vector, and where the two extractors part. */
module FeatureTheorems {
  import opened Common
  import opened Trace
  import opened Alphabet
  import opened Counting
  import opened RealArith
  import opened Entropy
  import opened Features

  function SumReal(xs: seq<real>): real { if xs == [] then 0.0 else SumReal(xs[..|xs| - 1]) + xs[|xs| - 1] }

  /** The share of each count in `total`. */
  function Shares(c: seq<nat>, total: nat): seq<real>
    requires total > 0
  {
    seq(|c|, i requires 0 <= i < |c| => Share(c[i], total))
  }

  lemma {:induction false} SharesAddUp(c: seq<nat>, total: nat)
    requires total > 0
    ensures SumReal(Shares(c, total)) == Share(Sum(c), total)
  {
    hide Share;
    if c == [] {
      ShareEnds(total);
    } else {
      var n := |c| - 1;
      SharesAddUp(c[..n], total);
      assert Shares(c, total)[..n] == Shares(c[..n], total);
      ShareAdds(Sum(c[..n]), c[n], total);
    }
  }

  lemma {:induction false} SumOfZeroReals(xs: seq<real>)
    requires forall i :: 0 <= i < |xs| ==> xs[i] == 0.0
    ensures SumReal(xs) == 0.0
  {
    if xs != [] {
      SumOfZeroReals(xs[..|xs| - 1]);
    }
  }

  // ---- the Markov block ----

  /** The block's row `a` is the distribution of what follows `a`: it sums to one, or is zero if nothing follows. */
  lemma MarkovRow(s: seq<Symbol>, a: Symbol)
    ensures var row := Markov(s, 576)[24 * a..24 * a + 24];
            if Outgoing(s, a) == 0 then SumReal(row) == 0.0 && forall x <- row :: x == 0.0 else SumReal(row) == 1.0
  {
    hide Pairs, Outgoing, Share;
    var row := Markov(s, 576)[24 * a..24 * a + 24];
    forall b: nat | b < 24 ensures row[b] == Cell(s, a, b) {
      FlatIndex(24 * a + b, a, b);
    }
    if Outgoing(s, a) == 0 {
      SumOfZeroReals(row);
    } else {
      RowAndColumnTotals(s, a);
      SharesAddUp(Row(s, a, 24), Outgoing(s, a));
      ShareEnds(Outgoing(s, a));
      assert row == Shares(Row(s, a, 24), Outgoing(s, a));
    }
  }

  /** Each entry of the block, times its row's departures, is a number of adjacent pairs of records. */
  lemma MarkovEntry(s: seq<Symbol>, a: Symbol, b: Symbol)
    ensures Mul(Markov(s, 576)[24 * a + b], Outgoing(s, a) as real) == Pairs(s, a, b) as real
    ensures 0.0 <= Markov(s, 576)[24 * a + b] <= 1.0
  {
    FlatIndex(24 * a + b, a, b);
    CellTimesOutgoing(s, a, b);
  }

  /** The counts behind the block: rows total departures, columns arrivals, all n - 1, and flow is conserved. */
  lemma MarkovCounts(s: seq<Symbol>, a: Symbol)
    requires s != []
    ensures Sum(Row(s, a, 24)) == Outgoing(s, a) && Sum(Column(s, a, 24)) == Incoming(s, a)
    ensures Sum(Cells(s, 576)) == |s| - 1
    ensures Sum(Row(s, a, 24)) - Sum(Column(s, a, 24)) == Bit(s[0] == a) - Bit(s[|s| - 1] == a)
  {
    RowAndColumnTotals(s, a);
    GrandTotal(s);
    FlowConservation(s, a);
  }

  // ---- entropy ----

  /** Of two records or more: the pair shares sum to one, and bound the entropy from both sides. */
  lemma EntropyBounds(s: seq<Symbol>, ln: real -> real)
    requires IsLn(ln) && |s| >= 2
    ensures SumReal(Shares(Cells(s, 576), |s| - 1)) == 1.0
    ensures var unique, entropy := Support(Cells(s, 576)), PairEntropy(s, 576, ln);
            && 1 <= unique <= |s| - 1 && unique <= 576
            && -EPSILON <= entropy <= ln(unique as real)
            && (unique >= 2 && |s| <= 1_000_000_000_000 ==> 0.0 <= entropy)
  {
    hide IsLn, EntropyOf, Share, Pairs;
    var c := Cells(s, 576);
    GrandTotal(s);
    SupportBounds(c);
    SharesAddUp(c, |s| - 1);
    ShareEnds(|s| - 1);
    EntropyAtMost(ln, c);
    EntropyAtLeast(ln, c);
    if Support(c) >= 2 && |s| <= 1_000_000_000_000 { EntropyNonNegative(ln, c); }
  }

  /** A single record has no pairs: no entropy and no distinct pair. */
  lemma SingleRecord(s: seq<Symbol>, ln: real -> real)
    requires |s| == 1
    ensures Support(Cells(s, 576)) == 0 && PairEntropy(s, 576, ln) == 0.0
  {
    hide IsLn;
    NoPairsNoEntropy(Cells(s, 576), 1, ln);
  }

  lemma {:induction false} NoPairsNoEntropy(c: seq<nat>, total: nat, ln: real -> real)
    requires total > 0 && forall i :: 0 <= i < |c| ==> c[i] == 0
    ensures Support(c) == 0 && EntropyOf(c, total, ln) == 0.0
  {
    if c != [] { NoPairsNoEntropy(c[..|c| - 1], total, ln); }
  }

  // ---- buckets ----

  function BucketCounts(bs: seq<Bucket>, k: nat): seq<nat> { seq(k, b => Occurrences(bs, b)) }

  lemma {:induction false} BucketCountsStep(bs: seq<Bucket>, k: nat)
    requires bs != []
    ensures Sum(BucketCounts(bs, k)) == Sum(BucketCounts(bs[..|bs| - 1], k)) + Bit(bs[|bs| - 1] < k)
  {
    if k > 0 {
      BucketCountsStep(bs, k - 1);
      assert BucketCounts(bs, k)[..k - 1] == BucketCounts(bs, k - 1);
      assert BucketCounts(bs[..|bs| - 1], k)[..k - 1] == BucketCounts(bs[..|bs| - 1], k - 1);
    }
  }

  lemma {:induction false} BucketCountsTotal(bs: seq<Bucket>)
    ensures Sum(BucketCounts(bs, 12)) == |bs|
  {
    if bs == [] {
      SumOfZeros(BucketCounts(bs, 12));
    } else {
      BucketCountsTotal(bs[..|bs| - 1]);
      BucketCountsStep(bs, 12);
    }
  }

  lemma BucketRatiosSumToOne(bs: seq<Bucket>)
    requires bs != []
    ensures SumReal(BucketRatios(bs, 12)) == 1.0
  {
    hide Share, Occurrences;
    BucketCountsTotal(bs);
    SharesAddUp(BucketCounts(bs, 12), |bs|);
    ShareEnds(|bs|);
    assert BucketRatios(bs, 12) == Shares(BucketCounts(bs, 12), |bs|);
  }

  // ---- the two extractors ----

  predicate NonNegative(rs: seq<Record>) {
    forall i :: 0 <= i < |rs| ==> 0 <= rs[i].argClass && 0 <= rs[i].argBucket
  }

  lemma SameSymbolsAndBuckets(rs: seq<Record>)
    requires NonNegative(rs)
    ensures JavaSymbols(rs) == PySymbols(rs) && JavaBuckets(rs) == PyBuckets(rs)
  {
    hide JavaSymbol, PySymbol, JavaBucket, PyBucket;
    forall i | 0 <= i < |rs|
      ensures JavaSymbol(rs[i].syscallId) == PySymbol(rs[i].syscallId)
      ensures JavaBucket(rs[i].argClass, rs[i].argBucket) == PyBucket(rs[i].argClass, rs[i].argBucket)
    {
      SymbolsAgree(rs[i].syscallId);
      BucketsAgreeIff(rs[i].argClass, rs[i].argBucket);
    }
  }

  lemma ShareInjective(m: nat, n: nat, total: nat)
    requires total > 0 && Share(m, total) == Share(n, total)
    ensures m == n
  {
    if m < n { ShareOrder(m, n, total); }
    if n < m { ShareOrder(n, m, total); }
  }

  /** Where the vectors' parts lie. */
  lemma Layout(s: seq<Symbol>, fileOps: nat, netOps: nat, durationSec: real, ln: real -> real, bs: seq<Bucket>)
    requires s != [] && bs != []
    ensures var v := Markov(s, 576) + Stats(s, fileOps, netOps, durationSec, ln) + BucketRatios(bs, 12);
            && |v| == 594 && v[..576] == Markov(s, 576)
            && v[576] == Support(Cells(s, 576)) as real && v[577] == PairEntropy(s, 576, ln)
            && v[578] == Share(fileOps, |s|) && v[579] == Share(netOps, |s|)
            && v[580] == durationSec && v[582..] == BucketRatios(bs, 12)
  {
    hide PairEntropy, Support, Share, Cells, Markov, BucketRatios;
    var m, t, r := Markov(s, 576), Stats(s, fileOps, netOps, durationSec, ln), BucketRatios(bs, 12);
    MarkovLengths(s, bs);
    var v := m + t + r;
    assert v[..576] == m && v[582..] == r;
    forall i | 0 <= i < 6 ensures v[576 + i] == t[i] { }
  }

  lemma MarkovLengths(s: seq<Symbol>, bs: seq<Bucket>)
    requires bs != []
    ensures |Markov(s, 576)| == 576 && |BucketRatios(bs, 12)| == 12
  {
  }

  /**
   * The extractors agree. On records with no negative class or bucket both vectors have 594 entries and are equal
   * everywhere but at 578 and 579, unless there are no records; and they are equal there too exactly when the window
   * holds equally many records of classes 0, 1 and 2.
   */
  lemma ExtractorsAgree(rs: seq<Record>, ln: real -> real)
    requires NonNegative(rs)
    ensures var j, p := JavaVector(rs, ln), PyVector(rs, ln);
            && |p| == 594 && |j| == (if rs == [] then 0 else 594)
            && (forall i :: 0 <= i < |j| && i != 578 && i != 579 ==> j[i] == p[i])
            && (j == p <==> rs != [] && ClassCount(rs, 0) == ClassCount(rs, 1) == ClassCount(rs, 2))
  {
    if rs == [] {
      EmptyWindowsDiffer(ln);
    } else {
      ExtractorsAgreeOnRecords(rs, ln);
    }
  }

  lemma ExtractorsAgreeOnRecords(rs: seq<Record>, ln: real -> real)
    requires rs != [] && NonNegative(rs)
    ensures var j, p := JavaVector(rs, ln), PyVector(rs, ln);
            && |j| == |p| == 594
            && (forall i :: 0 <= i < 594 && i != 578 && i != 579 ==> j[i] == p[i])
            && (j == p <==> ClassCount(rs, 0) == ClassCount(rs, 1) == ClassCount(rs, 2))
  {
    hide Markov, Stats, BucketRatios, Share, DurationSec, ClassCount, JavaSymbols, PySymbols, JavaBuckets, PyBuckets;
    SameSymbolsAndBuckets(rs);
    SequencesNonEmpty(rs);
    var s, bs, d := JavaSymbols(rs), JavaBuckets(rs), DurationSec(rs);
    AgreeOutsideRatios(s, ClassCount(rs, 0), ClassCount(rs, 1), ClassCount(rs, 1), ClassCount(rs, 2), d, ln, bs);
  }

  lemma SequencesNonEmpty(rs: seq<Record>)
    ensures |JavaSymbols(rs)| == |PySymbols(rs)| == |JavaBuckets(rs)| == |PyBuckets(rs)| == |rs|
  {
  }

  lemma AgreeOutsideRatios(s: seq<Symbol>, f: nat, n: nat, f': nat, n': nat, d: real, ln: real -> real, bs: seq<Bucket>)
    requires s != [] && bs != []
    ensures var j, p := Markov(s, 576) + Stats(s, f, n, d, ln) + BucketRatios(bs, 12),
                        Markov(s, 576) + Stats(s, f', n', d, ln) + BucketRatios(bs, 12);
            && |j| == |p| == 594
            && (forall i :: 0 <= i < 594 && i != 578 && i != 579 ==> j[i] == p[i])
            && (j == p <==> f == f' && n == n')
  {
    hide PairEntropy, Support, Share, Cells, Markov, BucketRatios;
    Layout(s, f, n, d, ln, bs);
    Layout(s, f', n', d, ln, bs);
    MarkovLengths(s, bs);
    if Share(f, |s|) == Share(f', |s|) { ShareInjective(f, f', |s|); }
    if Share(n, |s|) == Share(n', |s|) { ShareInjective(n, n', |s|); }
  }

  /** On no records they differ: the server's vector is empty, the tool's is 594 zeros. */
  lemma EmptyWindowsDiffer(ln: real -> real)
    ensures JavaVector([], ln) == [] && |PyVector([], ln)| == 594 && forall x <- PyVector([], ln) :: x == 0.0
  {
  }
}
