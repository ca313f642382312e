/** What the in-process score is worth, signal by signal, in terms of records and vector entries. */
module ScoreMeaning {
  import opened Common
  import opened Trace
  import opened Alphabet
  import opened Counting
  import opened RealArith
  import opened Features
  import opened FeatureTheorems
  import opened VectorMeaning
  import opened Scoring

  // ---- patterns, on records ----

  function LetterBefore(rs: seq<Record>, i: nat): Symbol
    requires 0 < i < |rs|
  {
    JavaSymbol(rs[i - 1].syscallId)
  }

  /** The records whose system call is one of `to`, coming directly after one whose letter is `a`. */
  function After(rs: seq<Record>, a: Symbol, to: set<int>): set<nat> {
    set i: nat | 0 < i < |rs| && LetterBefore(rs, i) == a && rs[i].syscallId in to
  }

  /** The records that come directly after one whose letter is `a`. */
  function AfterLetter(rs: seq<Record>, a: Symbol): set<nat> { set i: nat | 0 < i < |rs| && LetterBefore(rs, i) == a }

  /** More than `share` of what follows letter `a` is one of `to`. */
  predicate Follows(rs: seq<Record>, a: Symbol, to: set<int>, share: real) {
    |After(rs, a, to)| as real > share * |AfterLetter(rs, a)| as real
  }

  /** The letters the patterns are about are those of these calls alone. */
  lemma LettersOf(id: int)
    ensures JavaSymbol(id) == 0 <==> id == 59
    ensures JavaSymbol(id) == 6 <==> id == 42
    ensures JavaSymbol(id) == 10 <==> id in {41, 49, 50}
    ensures JavaSymbol(id) == 11 <==> id in {56, 57}
    ensures JavaSymbol(id) == 18 <==> id == 101
    ensures JavaSymbol(id) == 19 <==> id in {165, 166}
  {
    hide JavaSymbol;
    CallsOf(id);
  }

  lemma FollowsIsCell(rs: seq<Record>, ln: real -> real, a: Symbol, b: Symbol, to: set<int>, share: real)
    requires rs != [] && (forall id :: JavaSymbol(id) == b <==> id in to) && 0.0 <= share
    ensures Follows(rs, a, to, share) <==> GetMarkovCell(JavaVector(rs, ln), a, b) > share
  {
    hide JavaVector, Cell, Mul, JavaSymbol, Pairs, Outgoing;
    var s := JavaSymbols(rs);
    PairsArePositions(s, a, b);
    CellTimesOutgoing(s, a, b);
    ReadsPairFrequency(rs, ln, a, b);
    assert After(rs, a, to) == PairAt(s, a, b);
    assert AfterLetter(rs, a) == Left(s, a);
    CompareQuotient(Cell(s, a, b), |AfterLetter(rs, a)|, |After(rs, a, to)| as real, share);
    if |AfterLetter(rs, a)| == 0 {
      PairsWithinRow(s, a, b);
    }
  }

  lemma CompareQuotient(cell: real, out: nat, pairs: real, share: real)
    requires Mul(cell, out as real) == pairs
    ensures out > 0 ==> (pairs > share * out as real <==> cell > share)
  {
    if out > 0 { ScaleCompare(share, cell, out as real); }
  }

  lemma ScaleCompare(a: real, b: real, t: real)
    requires t > 0.0
    ensures a * t < b * t <==> a < b
  {
    if a < b { MulLess(a, b, t); } else if b < a { MulLess(b, a, t); }
  }

  // ---- the parts of the score, on vector entries ----

  /** Column `b` of the block, added up. */
  function Column24(v: seq<real>, b: Symbol): real
    requires |v| == 594
  {
    SumReal(seq(24, a requires 0 <= a < 24 => v[24 * a + b]))
  }

  lemma {:induction false} ColumnIsSum(v: seq<real>, b: Symbol, n: nat)
    requires |v| == 594 && n <= 24
    ensures ColumnTotal(v, b, n) == SumReal(seq(n, a requires 0 <= a < n => v[24 * a + b]))
  {
    if n > 0 {
      ColumnIsSum(v, b, n - 1);
      var xs := seq(n, a requires 0 <= a < n => v[24 * a + b]);
      assert xs[..n - 1] == seq(n - 1, a requires 0 <= a < n - 1 => v[24 * a + b]);
    }
  }

  /** Execve then connect or socket; anything then ptrace; anything then mount or unmount; fork then fork. */
  predicate Shell(v: seq<real>) requires |v| == 594 { v[6] > 0.1 || v[10] > 0.1 }
  predicate Traces(v: seq<real>) requires |v| == 594 { Column24(v, 18) > 0.01 }
  predicate Mounts(v: seq<real>) requires |v| == 594 { Column24(v, 19) > 0.01 }
  predicate Forks(v: seq<real>) requires |v| == 594 { v[275] > 0.3 }

  /** The patterns a vector shows, in tenths of the whole. */
  function Tenths(v: seq<real>): nat
    requires |v| == 594
  {
    3 * Bit(Shell(v)) + 4 * Bit(Traces(v)) + 3 * Bit(Mounts(v)) + 4 * Bit(Forks(v))
  }

  lemma PatternsWeigh(v: seq<real>)
    requires |v| == 594
    ensures Suspicion(v) == if Tenths(v) >= 10 then 1.0 else Tenths(v) as real / 10.0
  {
    hide ColumnTotal, SumReal;
    ColumnIsSum(v, 18, 24);
    ColumnIsSum(v, 19, 24);
    assert GetMarkovCell(v, 0, 6) == v[6] && GetMarkovCell(v, 0, 10) == v[10] && GetMarkovCell(v, 11, 11) == v[275];
  }

  /** Neither many network records nor too little or too much entropy nor many distinct pairs. */
  predicate Quiet(v: seq<real>)
    requires |v| == 594
  {
    v[579] <= 0.4 && 1.0 <= v[577] <= 4.0 && v[576] <= 50.0
  }

  /** Without a baseline, an otherwise quiet vector scores 0.03 for each tenth of the patterns it shows, up to 0.3. */
  lemma QuietScore(v: seq<real>)
    requires |v| == 594 && Quiet(v)
    ensures ScoreOf(v, None).score == if Tenths(v) >= 10 then 0.3 else 0.03 * Tenths(v) as real
  {
    hide Suspicion, Tenths;
    PatternsWeigh(v);
  }

  /** Without a baseline the score is zero exactly for a quiet vector without a pattern. */
  lemma ZeroScoreIff(v: seq<real>)
    requires |v| == 594
    ensures ScoreOf(v, None).score == 0.0 <==> Quiet(v) && Tenths(v) == 0
  {
    hide Suspicion, Tenths;
    PatternsWeigh(v);
  }

  /** Every pattern, whatever else there is and with any baseline, is worth at least its tenths of 0.3. */
  lemma PatternsRaise(v: seq<real>, baseline: Option<Baseline>)
    requires |v| == 594
    ensures ScoreOf(v, baseline).score >= if Tenths(v) >= 10 then 0.3 else 0.03 * Tenths(v) as real
  {
    hide Suspicion, Tenths, Deviation;
    PatternsWeigh(v);
    if baseline.Some? { DeviationRange(v, baseline.value); }
  }

  /** Two vectors alike but for one entry. */
  predicate DifferAt(v: seq<real>, w: seq<real>, i: nat)
    requires i < 594
  {
    |v| == |w| == 594 && v == w[i := v[i]]
  }

  lemma SameColumns(v: seq<real>, w: seq<real>, i: nat)
    requires 576 <= i < 594 && DifferAt(v, w, i)
    ensures Tenths(v) == Tenths(w) && Suspicion(v) == Suspicion(w)
  {
    assert seq(24, a requires 0 <= a < 24 => v[24 * a + 18]) == seq(24, a requires 0 <= a < 24 => w[24 * a + 18]);
    assert seq(24, a requires 0 <= a < 24 => v[24 * a + 19]) == seq(24, a requires 0 <= a < 24 => w[24 * a + 19]);
    PatternsWeigh(v);
    PatternsWeigh(w);
  }

  /** A third of what the share of network records exceeds 0.4 by. */
  function NetDue(net: real): real { if net > 0.4 then (net - 0.4) / 3.0 else 0.0 }

  /** What the entropy lacks of 1, times 0.15, or half of what it exceeds 4 by, at most 0.15. */
  function EntropyDue(entropy: real): real {
    if entropy < 1.0 then 0.15 * (1.0 - entropy)
    else if entropy > 4.3 then 0.15
    else if entropy > 4.0 then (entropy - 4.0) / 2.0
    else 0.0
  }

  /** A hundredth of the distinct pairs beyond 50, at most 0.15. */
  function UniqueDue(unique: real): real {
    if unique > 65.0 then 0.15 else if unique > 50.0 then (unique - 50.0) / 100.0 else 0.0
  }

  lemma Dues(net: real, entropy: real, unique: real)
    ensures NetPart(net) == NetDue(net) && EntropyPart(entropy) == EntropyDue(entropy) && UniquePart(unique) == UniqueDue(unique)
  {
  }

  /** Below the cap of 1, without a baseline, each of the three statistics adds what is due to it and nothing else changes. */
  lemma StatisticsAdd(v: seq<real>, w: seq<real>, i: nat)
    requires i in {576, 577, 579} && DifferAt(v, w, i)
    requires ScoreOf(v, None).score < 1.0 && ScoreOf(w, None).score < 1.0
    ensures ScoreOf(v, None).score - ScoreOf(w, None).score ==
            if i == 579 then NetDue(v[579]) - NetDue(w[579])
            else if i == 577 then EntropyDue(v[577]) - EntropyDue(w[577])
            else UniqueDue(v[576]) - UniqueDue(w[576])
  {
    hide Suspicion, NetPart, EntropyPart, UniquePart, NetDue, EntropyDue, UniqueDue;
    SameColumns(v, w, i);
    Dues(v[579], v[577], v[576]);
    Dues(w[579], w[577], w[576]);
  }

  /** Below the cap a baseline adds a fifth of the weighted distance of the three statistics from it, at most 0.2. */
  lemma BaselineAdds(v: seq<real>, b: Baseline)
    requires |v| == 594 && ScoreOf(v, Some(b)).score < 1.0
    ensures var far := 0.3 * Abs(v[579] - b.avgNetRatio) + 0.1 * Abs(v[577] - b.avgEntropy) + 0.006 * Abs(v[576] - b.avgUniqueTwoGrams);
            ScoreOf(v, Some(b)).score - ScoreOf(v, None).score == if far > 1.0 then 0.2 else 0.2 * far
  {
    hide Suspicion, NetPart, EntropyPart, UniquePart, Abs;
    DeviationRange(v, b);
  }

  /** A vector is anomalous exactly from a score above 0.6 on; the cap leaves nothing above 1. */
  lemma AnomalousIff(v: seq<real>, baseline: Option<Baseline>)
    ensures var s := ScoreOf(v, baseline); s.score <= 1.0 && (s.anomalous <==> s.score > 0.6)
    ensures v == [] ==> ScoreOf(v, baseline).score == 0.0
  {
  }

  // ---- patterns, on records ----

  lemma EntriesBoundColumn(v: seq<real>, b: Symbol, a: Symbol)
    requires |v| == 594 && forall c: Symbol :: 0.0 <= v[24 * c + b]
    ensures v[24 * a + b] <= Column24(v, b)
  {
    PartsBoundSum(seq(24, c requires 0 <= c < 24 => v[24 * c + b]), a);
  }

  lemma {:induction false} PartsBoundSum(xs: seq<real>, i: nat)
    requires i < |xs| && forall j :: 0 <= j < |xs| ==> 0.0 <= xs[j]
    ensures xs[i] <= SumReal(xs)
  {
    var n := |xs| - 1;
    SumNonNegative(xs[..n]);
    if i < n { PartsBoundSum(xs[..n], i); }
  }

  lemma {:induction false} SumNonNegative(xs: seq<real>)
    requires forall j :: 0 <= j < |xs| ==> 0.0 <= xs[j]
    ensures 0.0 <= SumReal(xs)
  {
    if xs != [] { SumNonNegative(xs[..|xs| - 1]); }
  }

  lemma ColumnFollows(rs: seq<Record>, ln: real -> real, a: Symbol, b: Symbol, to: set<int>)
    requires rs != [] && (forall id :: JavaSymbol(id) == b <==> id in to) && Follows(rs, a, to, 0.01)
    ensures |JavaVector(rs, ln)| == 594 && Column24(JavaVector(rs, ln), b) > 0.01
  {
    hide JavaVector, JavaSymbol, Follows, Column24, Cell, Means;
    var v := JavaVector(rs, ln);
    VectorLengthIs(rs, ln);
    FollowsIsCell(rs, ln, a, b, to, 0.01);
    forall c: Symbol ensures 0.0 <= v[24 * c + b] {
      ReadsPairFrequency(rs, ln, c, b);
      CellTimesOutgoing(JavaSymbols(rs), c, b);
    }
    EntriesBoundColumn(v, b, a);
  }

  lemma VectorLengthIs(rs: seq<Record>, ln: real -> real)
    requires rs != []
    ensures |JavaVector(rs, ln)| == 594
  {
    hide Means;
    JavaVectorMeans(rs, ln);
    MeansLength(JavaVector(rs, ln), rs, JavaSymbols(rs), JavaBuckets(rs), 0, 1, ln);
  }

  lemma MeansLength(v: seq<real>, rs: seq<Record>, s: seq<Symbol>, bs: seq<Bucket>, fileClass: int, netClass: int, ln: real -> real)
    requires Means(v, rs, s, bs, fileClass, netClass, ln)
    ensures |v| == 594
  {
  }

  /**
   * From records to score, with any baseline: ptrace above one in a hundred after some letter scores at least 0.12, so
   * does fork above three in ten after fork; mount or unmount above one in a hundred after some letter scores at least
   * 0.09, and so does connect, or socket, bind and listen together, above one in ten after execve.
   */
  lemma RecordsRaise(rs: seq<Record>, ln: real -> real, baseline: Option<Baseline>)
    requires rs != []
    ensures var score := ScoreOf(JavaVector(rs, ln), baseline).score;
            && ((exists a: Symbol :: Follows(rs, a, {101}, 0.01)) ==> score >= 0.12)
            && ((exists a: Symbol :: Follows(rs, a, {165, 166}, 0.01)) ==> score >= 0.09)
            && (Follows(rs, 0, {42}, 0.1) || Follows(rs, 0, {41, 49, 50}, 0.1) ==> score >= 0.09)
            && (Follows(rs, 11, {56, 57}, 0.3) ==> score >= 0.12)
  {
    hide JavaVector, JavaSymbol, Follows, Column24, ScoreOf;
    var v := JavaVector(rs, ln);
    VectorLengthIs(rs, ln);
    forall id ensures (JavaSymbol(id) == 6 <==> id in {42}) && (JavaSymbol(id) == 10 <==> id in {41, 49, 50})
                      && (JavaSymbol(id) == 11 <==> id in {56, 57}) && (JavaSymbol(id) == 18 <==> id in {101})
                      && (JavaSymbol(id) == 19 <==> id in {165, 166}) {
      LettersOf(id);
    }
    PatternsRaise(v, baseline);
    FollowsIsCell(rs, ln, 0, 6, {42}, 0.1);
    FollowsIsCell(rs, ln, 0, 10, {41, 49, 50}, 0.1);
    FollowsIsCell(rs, ln, 11, 11, {56, 57}, 0.3);
    if a: Symbol :| Follows(rs, a, {101}, 0.01) { ColumnFollows(rs, ln, a, 18, {101}); }
    if a: Symbol :| Follows(rs, a, {165, 166}, 0.01) { ColumnFollows(rs, ln, a, 19, {165, 166}); }
  }

  // ---- baselines ----

  function Copies(v: seq<real>, n: nat): seq<seq<real>> { seq(n, _ => v) }

  lemma {:induction false} SumsOfCopies(v: seq<real>, n: nat, i: nat)
    requires |v| > 581 && i < |v|
    ensures Usable(Copies(v, n)) == Copies(v, n) && EntrySum(Copies(v, n), i) == Mul(n as real, v[i])
  {
    hide Mul;
    if n == 0 {
      MulUnits(v[i]);
    } else {
      SumsOfCopies(v, n - 1, i);
      OneMore(n - 1, v[i]);
      assert Copies(v, n) == Copies(v, n - 1) + [v];
      assert Copies(v, n)[..n - 1] == Copies(v, n - 1);
    }
  }

  /** A baseline trained on copies of one vector is that vector's statistics, so it adds nothing to its score. */
  lemma OwnBaselineAddsNothing(n: nat, v: seq<real>, b: Baseline)
    requires n > 0 && |v| == 594 && IsBaseline(Copies(v, n), b)
    ensures b == Baseline(v[579], v[577], v[576])
    ensures ScoreOf(v, Some(b)) == ScoreOf(v, None)
  {
    hide Mul, Suspicion, EntrySum, Usable;
    SumsOfCopies(v, n, 579);
    SumsOfCopies(v, n, 577);
    SumsOfCopies(v, n, 576);
    QuotientOfMul(n as real, v[579]);
    QuotientOfMul(n as real, v[577]);
    QuotientOfMul(n as real, v[576]);
  }

  lemma QuotientOfMul(t: real, x: real)
    requires t > 0.0
    ensures Mul(t, x) / t == x
  {
  }

  /** Vectors too short to have all statistics do not count; if no other is there, fixed values stand in. */
  lemma ShortVectorsDoNotCount(data: seq<seq<real>>, v: seq<real>, b: Baseline)
    requires |v| <= 581
    ensures IsBaseline(data + [v], b) <==> IsBaseline(data, b)
    ensures IsBaseline([], b) <==> b == Baseline(0.1, 2.0, 20.0)
  {
    assert (data + [v])[..|data|] == data;
    assert Usable(data) + [] == Usable(data);
  }

  // ---- vectors of other lengths ----

  /** The vector with only what the score reads: no network records, an entropy of 1 and no pair where it is too short. */
  function Filled(v: seq<real>): seq<real> {
    seq(594, (i: nat) => if i < |v| && i < 580 then v[i] else if i == 577 then 1.0 else 0.0)
  }

  lemma FilledColumn(v: seq<real>, b: Symbol, n: nat)
    requires |v| >= 576 && n <= 24
    ensures ColumnTotal(v, b, n) == ColumnTotal(Filled(v), b, n)
  {
    if n > 0 { FilledColumn(v, b, n - 1); }
  }

  /** Without a baseline a shorter vector scores as if filled up, and entries from 580 on never count. */
  lemma OtherLengths(v: seq<real>, baseline: Option<Baseline>)
    ensures |v| < 576 ==> ScoreOf(v, None) == Score(0.0, false)
    ensures |v| >= 576 ==> ScoreOf(v, None) == ScoreOf(Filled(v), None)
    ensures |v| >= 580 ==> ScoreOf(v, baseline) == ScoreOf(Filled(v), baseline)
  {
    hide NetPart, EntropyPart, UniquePart, Suspicion, Filled;
    if |v| < 576 {
      TooShort(v);
    } else {
      FilledPatterns(v);
      FilledStatistics(v);
      QuietParts();
    }
  }

  lemma TooShort(v: seq<real>)
    requires |v| < 576
    ensures Suspicion(v) == 0.0
  {
  }

  lemma FilledPatterns(v: seq<real>)
    requires |v| >= 576
    ensures Suspicion(v) == Suspicion(Filled(v))
  {
    hide ColumnTotal;
    FilledColumn(v, 18, 24);
    FilledColumn(v, 19, 24);
  }

  lemma FilledStatistics(v: seq<real>)
    ensures var w := Filled(v);
            && |w| == 594
            && w[576] == (if |v| > 576 then v[576] else 0.0)
            && w[577] == (if |v| > 577 then v[577] else 1.0)
            && w[579] == (if |v| > 579 then v[579] else 0.0)
  {
  }

  lemma QuietParts()
    ensures NetPart(0.0) == 0.0 && EntropyPart(1.0) == 0.0 && UniquePart(0.0) == 0.0
  {
  }
}
