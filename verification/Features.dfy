/** The 594-element feature vector: what its entries mean, and the two extractors that fill it. */
module Features {
  import opened Common
  import opened Trace
  import opened Alphabet
  import opened Counting
  import opened RealArith
  import opened Entropy

  const FEATURE_DIM := 594

  // ---- what the entries mean ----

  /** The share of `a`'s departures that go to `b`; zero if `a` is never left. */
  function Cell(s: seq<Symbol>, a: int, b: int): real {
    if Outgoing(s, a) == 0 then 0.0 else Share(Pairs(s, a, b), Outgoing(s, a))
  }

  function Markov(s: seq<Symbol>, k: nat): seq<real> { seq(k, i => Cell(s, i / 24, i % 24)) }

  function Max1(n: int): nat { if n < 1 then 1 else n }

  /** Entropy over the first `k` cells. */
  function PairEntropy(s: seq<Symbol>, k: nat, ln: real -> real): real { EntropyOf(Cells(s, k), Max1(|s| - 1), ln) }

  function ClassCount(rs: seq<Record>, argClass: int): nat {
    if rs == [] then 0 else ClassCount(rs[..|rs| - 1], argClass) + Bit(rs[|rs| - 1].argClass == argClass)
  }

  /** From the window's start to its last record, in seconds. */
  function DurationSec(rs: seq<Record>): real {
    if rs == [] then 0.0 else rs[|rs| - 1].deltaUs as real / 1_000_000.0
  }

  function BucketRatios(bs: seq<Bucket>, k: nat): seq<real>
    requires bs != []
  {
    seq(k, b => Share(Occurrences(bs, b), |bs|))
  }

  /** The six statistics that follow the Markov block. */
  function Stats(s: seq<Symbol>, fileOps: nat, netOps: nat, durationSec: real, ln: real -> real): seq<real>
    requires s != []
  {
    [Support(Cells(s, 576)) as real, PairEntropy(s, 576, ln), Share(fileOps, |s|), Share(netOps, |s|),
     durationSec, durationSec / |s| as real]
  }

  /** The server's vector: empty for no records; classes 0 and 1 counted as file and network operations. */
  function JavaVector(rs: seq<Record>, ln: real -> real): seq<real> {
    if rs == [] then []
    else
      var s := JavaSymbols(rs);
      Markov(s, 576) + Stats(s, ClassCount(rs, 0), ClassCount(rs, 1), DurationSec(rs), ln) + BucketRatios(JavaBuckets(rs), 12)
  }

  function Zeros(n: nat): seq<real> { seq(n, _ => 0.0) }

  /** The training tool's vector: zeros for no records; classes 1 and 2 counted as file and network operations. */
  function PyVector(rs: seq<Record>, ln: real -> real): seq<real> {
    if rs == [] then Zeros(594)
    else
      var s := PySymbols(rs);
      Markov(s, 576) + Stats(s, ClassCount(rs, 1), ClassCount(rs, 2), DurationSec(rs), ln) + BucketRatios(PyBuckets(rs), 12)
  }

  // ---- one record more ----

  predicate Counted(s: seq<Symbol>, transitions: array2<real>, outgoing: array<int>)
    requires transitions.Length0 == transitions.Length1 == outgoing.Length == 24
    reads transitions, outgoing
  {
    && (forall a, b :: 0 <= a < 24 && 0 <= b < 24 ==> transitions[a, b] == Pairs(s, a, b) as real)
    && (forall a :: 0 <= a < 24 ==> outgoing[a] == Outgoing(s, a))
  }

  predicate BucketsCounted(bs: seq<Bucket>, bucketCounts: array<int>)
    requires bucketCounts.Length == 12
    reads bucketCounts
  {
    forall b :: 0 <= b < 12 ==> bucketCounts[b] == Occurrences(bs, b)
  }

  lemma PairsExtend(s: seq<Symbol>, i: nat)
    requires i < |s|
    ensures forall a, b :: Pairs(s[..i + 1], a, b) == Pairs(s[..i], a, b) + Bit(i > 0 && s[i - 1] == a && s[i] == b)
    ensures forall a :: Outgoing(s[..i + 1], a) == Outgoing(s[..i], a) + Bit(i > 0 && s[i - 1] == a)
  {
    assert s[..i + 1][..i] == s[..i];
  }

  lemma OccurrencesExtend(bs: seq<Bucket>, i: nat)
    requires i < |bs|
    ensures forall b :: Occurrences(bs[..i + 1], b) == Occurrences(bs[..i], b) + Bit(bs[i] == b)
  {
    assert bs[..i + 1][..i] == bs[..i];
  }

  /** The step both extractors take at a record that has a predecessor. */
  method AddTransition(ghost s: seq<Symbol>, ghost i: nat, prevId: Symbol, currId: Symbol,
                       transitions: array2<real>, outgoing: array<int>)
    requires transitions.Length0 == transitions.Length1 == outgoing.Length == 24
    requires 0 < i < |s| && prevId == s[i - 1] && currId == s[i] && Counted(s[..i], transitions, outgoing)
    modifies transitions, outgoing
    ensures Counted(s[..i + 1], transitions, outgoing)
  {
    PairsExtend(s, i);
    transitions[prevId, currId] := transitions[prevId, currId] + 1.0;
    outgoing[prevId] := outgoing[prevId] + 1;
  }

  method AddBucket(ghost bs: seq<Bucket>, ghost i: nat, bucket: Bucket, bucketCounts: array<int>)
    requires bucketCounts.Length == 12 && i < |bs| && bucket == bs[i] && BucketsCounted(bs[..i], bucketCounts)
    modifies bucketCounts
    ensures BucketsCounted(bs[..i + 1], bucketCounts)
  {
    OccurrencesExtend(bs, i);
    bucketCounts[bucket] := bucketCounts[bucket] + 1;
  }

  // ---- the loops both extractors share, line for line ----

  method NormalizeRows(s: seq<Symbol>, transitions: array2<real>, outgoing: array<int>)
    requires transitions.Length0 == transitions.Length1 == outgoing.Length == 24
    requires Counted(s, transitions, outgoing)
    modifies transitions
    ensures forall a, b :: 0 <= a < 24 && 0 <= b < 24 ==> transitions[a, b] == Cell(s, a, b)
    ensures forall a :: 0 <= a < 24 ==> outgoing[a] == Outgoing(s, a)
  {
    hide Pairs, Outgoing;
    for i := 0 to 24
      invariant forall a, b :: 0 <= a < i && 0 <= b < 24 ==> transitions[a, b] == Cell(s, a, b)
      invariant forall a, b :: i <= a < 24 && 0 <= b < 24 ==> transitions[a, b] == Pairs(s, a, b) as real
    {
      if outgoing[i] > 0 {
        for j := 0 to 24
          invariant forall a, b :: 0 <= a < i && 0 <= b < 24 ==> transitions[a, b] == Cell(s, a, b)
          invariant forall b :: 0 <= b < j ==> transitions[i, b] == Cell(s, i, b)
          invariant forall b :: j <= b < 24 ==> transitions[i, b] == Pairs(s, i, b) as real
          invariant forall a, b :: i < a < 24 && 0 <= b < 24 ==> transitions[a, b] == Pairs(s, a, b) as real
        {
          transitions[i, j] := transitions[i, j] / outgoing[i] as real;
        }
      } else {
        forall b | 0 <= b < 24 ensures transitions[i, b] == Cell(s, i, b) {
          PairsWithinRow(s, i, b);
        }
      }
    }
  }

  lemma CellTimesOutgoing(s: seq<Symbol>, a: int, b: int)
    ensures Mul(Cell(s, a, b), Outgoing(s, a) as real) == Pairs(s, a, b) as real
    ensures Cell(s, a, b) > 0.0 <==> Pairs(s, a, b) > 0
    ensures 0.0 <= Cell(s, a, b) <= 1.0
  {
    PairsWithinRow(s, a, b);
    if Outgoing(s, a) > 0 {
      var out := Outgoing(s, a);
      ShareEnds(out);
      ShareOrder(0, Pairs(s, a, b), out);
      ShareOrder(Pairs(s, a, b), out, out);
    }
  }

  /** One cell more, row by row. */
  lemma CellsExtend(s: seq<Symbol>, k: nat, ln: real -> real)
    ensures Markov(s, k + 1) == Markov(s, k) + [Cell(s, k / 24, k % 24)]
    ensures Support(Cells(s, k + 1)) == Support(Cells(s, k)) + Bit(Pairs(s, k / 24, k % 24) > 0)
    ensures PairEntropy(s, k + 1, ln) == PairEntropy(s, k, ln) -
            if Pairs(s, k / 24, k % 24) > 0 then Term(Share(Pairs(s, k / 24, k % 24), Max1(|s| - 1)), ln) else 0.0
  {
    assert Cells(s, k + 1)[..k] == Cells(s, k);
  }

  /** Append the normalised matrix to the vector, counting its distinct pairs and their entropy on the way. */
  method EmitMarkov(s: seq<Symbol>, transitions: array2<real>, outgoing: array<int>, ln: real -> real)
    returns (vec: seq<real>, uniqueTwoGrams: nat, entropy: real)
    requires transitions.Length0 == transitions.Length1 == outgoing.Length == 24
    requires forall a, b :: 0 <= a < 24 && 0 <= b < 24 ==> transitions[a, b] == Cell(s, a, b)
    requires forall a :: 0 <= a < 24 ==> outgoing[a] == Outgoing(s, a)
    ensures vec == Markov(s, 576) && uniqueTwoGrams == Support(Cells(s, 576)) && entropy == PairEntropy(s, 576, ln)
  {
    hide Cell, Pairs, Outgoing, PairEntropy, Support;
    var totalTransitions := Max1(|s| - 1);
    vec, uniqueTwoGrams, entropy := [], 0, 0.0;
    NothingEmitted(s, ln);
    for i := 0 to 24
      invariant vec == Markov(s, 24 * i) && uniqueTwoGrams == Support(Cells(s, 24 * i)) && entropy == PairEntropy(s, 24 * i, ln)
    {
      for j := 0 to 24
        invariant var k := 24 * i + j;
                  vec == Markov(s, k) && uniqueTwoGrams == Support(Cells(s, k)) && entropy == PairEntropy(s, k, ln)
      {
        FlatIndex(24 * i + j, i, j);
        CellsExtend(s, 24 * i + j, ln);
        CellTimesOutgoing(s, i, j);
        var v := transitions[i, j];
        vec := vec + [v];
        if v > 0.0 {
          uniqueTwoGrams := uniqueTwoGrams + 1;
          var count := Mul(v, outgoing[i] as real);
          var p := count / totalTransitions as real;
          entropy := entropy - Mul(p, ln(p + EPSILON));
        }
      }
    }
  }

  lemma NothingEmitted(s: seq<Symbol>, ln: real -> real)
    ensures Markov(s, 0) == [] && Support(Cells(s, 0)) == 0 && PairEntropy(s, 0, ln) == 0.0
  {
  }

  method EmitBuckets(bs: seq<Bucket>, bucketCounts: array<int>) returns (ratios: seq<real>)
    requires bs != [] && bucketCounts.Length == 12 && BucketsCounted(bs, bucketCounts)
    ensures ratios == BucketRatios(bs, 12)
  {
    ratios := [];
    for b := 0 to 12
      invariant ratios == BucketRatios(bs, b)
    {
      assert BucketRatios(bs, b + 1) == BucketRatios(bs, b) + [Share(Occurrences(bs, b), |bs|)];
      ratios := ratios + [bucketCounts[b] as real / Max1(|bs|) as real];
    }
  }

  /** The last lines of both: pad with zeros, then cut, to 594 entries. */
  method PadAndCut(values: seq<real>) returns (vec: seq<real>)
    ensures vec == (values + Zeros(594))[..594]
    ensures |values| == 594 ==> vec == values
  {
    vec := values;
    while |vec| < FEATURE_DIM
      invariant |values| <= |vec| && vec == values + Zeros(|vec| - |values|)
      invariant |vec| <= 594 || vec == values
    {
      vec := vec + [0.0];
    }
    if |vec| > FEATURE_DIM {
      vec := vec[..FEATURE_DIM];
    }
  }

  // ---- the server's extractor ----

  method JavaExtract(records: seq<Record>, windowStartTsNs: int, ln: real -> real) returns (vec: seq<real>)
    ensures vec == JavaVector(records, ln)
  {
    hide Counted, BucketsCounted, Cell, Outgoing, JavaSymbol, JavaBucket, Markov, Stats, BucketRatios;
    if records == [] {
      return [];
    }
    var transitions := new real[24, 24]((i, j) => 0.0);
    var outgoing := new int[24](i => 0);
    var bucketCounts := new int[12](i => 0);
    var fileOps, netOps, procOps, otherOps := 0, 0, 0, 0;
    var lastTs := windowStartTsNs;
    var total := |records|;
    ghost var s, bs := JavaSymbols(records), JavaBuckets(records);
    NothingCounted(transitions, outgoing, bucketCounts);
    for i := 0 to total
      invariant Counted(s[..i], transitions, outgoing) && BucketsCounted(bs[..i], bucketCounts)
      invariant fileOps == ClassCount(records[..i], 0) && netOps == ClassCount(records[..i], 1)
      invariant lastTs == if i == 0 then windowStartTsNs else windowStartTsNs + records[i - 1].deltaUs * 1000
    {
      var r := records[i];
      assert records[..i + 1][..i] == records[..i];
      var currId := JavaSymbol(r.syscallId);
      var bucket := JavaBucket(r.argClass, r.argBucket);
      AddBucket(bs, i, bucket, bucketCounts);
      if r.argClass == 0 {
        fileOps := fileOps + 1;
      } else if r.argClass == 1 {
        netOps := netOps + 1;
      } else if r.argClass == 2 {
        procOps := procOps + 1;
      } else {
        otherOps := otherOps + 1;
      }
      lastTs := windowStartTsNs + r.deltaUs * 1000;
      if i > 0 {
        var prevId := JavaSymbol(records[i - 1].syscallId);
        AddTransition(s, i, prevId, currId, transitions, outgoing);
      } else {
        FirstRecordHasNoPair(s, transitions, outgoing);
      }
    }
    assert s[..total] == s && bs[..total] == bs && records[..total] == records;
    NormalizeRows(JavaSymbols(records), transitions, outgoing);
    var unique, entropy;
    vec, unique, entropy := EmitMarkov(JavaSymbols(records), transitions, outgoing, ln);
    var durationSec := (lastTs - windowStartTsNs) as real / 1_000_000_000.0;
    assert durationSec == DurationSec(records);
    vec := vec + [unique as real, entropy, fileOps as real / total as real, netOps as real / total as real,
                  durationSec, durationSec / total as real];
    assert vec == Markov(s, 576) + Stats(s, fileOps, netOps, durationSec, ln) by { StatsAre(s, fileOps, netOps, durationSec, ln); }
    var ratios := EmitBuckets(JavaBuckets(records), bucketCounts);
    vec := vec + ratios;
    VectorLength(s, bs, fileOps, netOps, durationSec, ln);
    vec := PadAndCut(vec);
  }

  lemma NothingCounted(transitions: array2<real>, outgoing: array<int>, bucketCounts: array<int>)
    requires transitions.Length0 == transitions.Length1 == outgoing.Length == 24 && bucketCounts.Length == 12
    requires forall a, b :: 0 <= a < 24 && 0 <= b < 24 ==> transitions[a, b] == 0.0
    requires forall a :: 0 <= a < 24 ==> outgoing[a] == 0
    requires forall b :: 0 <= b < 12 ==> bucketCounts[b] == 0
    ensures Counted([], transitions, outgoing) && BucketsCounted([], bucketCounts)
  {
  }

  lemma FirstRecordHasNoPair(s: seq<Symbol>, transitions: array2<real>, outgoing: array<int>)
    requires s != [] && transitions.Length0 == transitions.Length1 == outgoing.Length == 24
    requires Counted(s[..0], transitions, outgoing)
    ensures Counted(s[..1], transitions, outgoing)
  {
  }

  lemma StatsAre(s: seq<Symbol>, fileOps: nat, netOps: nat, durationSec: real, ln: real -> real)
    requires s != []
    ensures Stats(s, fileOps, netOps, durationSec, ln) ==
            [Support(Cells(s, 576)) as real, PairEntropy(s, 576, ln), fileOps as real / |s| as real, netOps as real / |s| as real,
             durationSec, durationSec / |s| as real]
  {
  }

  /** 576 cells, 6 statistics and 12 ratios: the padding and the cut never apply. */
  lemma VectorLength(s: seq<Symbol>, bs: seq<Bucket>, fileOps: nat, netOps: nat, durationSec: real, ln: real -> real)
    requires s != [] && bs != []
    ensures |Markov(s, 576) + Stats(s, fileOps, netOps, durationSec, ln) + BucketRatios(bs, 12)| == 594
  {
  }

  // ---- the training tool's extractor ----

  method PyExtract(records: seq<Record>, windowStartTsUs: int, ln: real -> real) returns (vec: seq<real>)
    ensures vec == PyVector(records, ln)
  {
    hide Counted, BucketsCounted, Cell, Outgoing, PySymbol, PyBucket, Markov, Stats, BucketRatios;
    if records == [] {
      return Zeros(594);
    }
    var transitions := new real[24, 24]((i, j) => 0.0);
    var outgoing := new int[24](i => 0);
    var bucketCounts := new int[12](i => 0);
    var fileOps, netOps, procOps, otherOps := 0, 0, 0, 0;
    var total := |records|;
    var firstTs := windowStartTsUs;
    var lastTs := firstTs;
    ghost var s, bs := PySymbols(records), PyBuckets(records);
    NothingCounted(transitions, outgoing, bucketCounts);
    for i := 0 to total
      invariant Counted(s[..i], transitions, outgoing) && BucketsCounted(bs[..i], bucketCounts)
      invariant fileOps == ClassCount(records[..i], 1) && netOps == ClassCount(records[..i], 2)
      invariant lastTs == if i == 0 then firstTs else firstTs + records[i - 1].deltaUs
    {
      var r := records[i];
      assert records[..i + 1][..i] == records[..i];
      var currId := PySymbol(r.syscallId);
      var bucket := PyBucket(r.argClass, r.argBucket);
      AddBucket(bs, i, bucket, bucketCounts);
      if r.argClass == 1 {
        fileOps := fileOps + 1;
      } else if r.argClass == 2 {
        netOps := netOps + 1;
      } else if r.argClass == 3 {
        procOps := procOps + 1;
      } else {
        otherOps := otherOps + 1;
      }
      lastTs := windowStartTsUs + r.deltaUs;
      if i > 0 {
        var prevId := PySymbol(records[i - 1].syscallId);
        AddTransition(s, i, prevId, currId, transitions, outgoing);
      } else {
        FirstRecordHasNoPair(s, transitions, outgoing);
      }
    }
    assert s[..total] == s && bs[..total] == bs && records[..total] == records;
    NormalizeRows(PySymbols(records), transitions, outgoing);
    var unique, entropy;
    vec, unique, entropy := EmitMarkov(PySymbols(records), transitions, outgoing, ln);
    var durationSec := (lastTs - firstTs) as real / 1_000_000.0;
    assert durationSec == DurationSec(records);
    vec := vec + [unique as real, entropy, fileOps as real / total as real, netOps as real / total as real,
                  durationSec, durationSec / total as real];
    assert vec == Markov(s, 576) + Stats(s, fileOps, netOps, durationSec, ln) by { StatsAre(s, fileOps, netOps, durationSec, ln); }
    var ratios := EmitBuckets(PyBuckets(records), bucketCounts);
    vec := vec + ratios;
    VectorLength(s, bs, fileOps, netOps, durationSec, ln);
    vec := PadAndCut(vec);
  }
}
