/** The in-process scorer, fed by the server's extractor. */
module Scoring {
  import opened Common
  import opened Trace
  import opened Alphabet
  import opened Counting
  import opened RealArith
  import opened Entropy
  import opened Features
  import opened FeatureTheorems

  const EXECVE: Symbol := 0
  const CONNECT: Symbol := 6
  const SOCKET: Symbol := 10
  const FORK_CLONE: Symbol := 11
  const PTRACE: Symbol := 18
  const MOUNT: Symbol := 19

  datatype Score = Score(score: real, anomalous: bool)
  datatype Baseline = Baseline(avgNetRatio: real, avgEntropy: real, avgUniqueTwoGrams: real)

  function MinReal(a: real, b: real): real { if a < b then a else b }
  function Abs(a: real): real { if a < 0.0 then -a else a }

  function GetMarkovCell(values: seq<real>, source: int, target: int): real {
    var idx := source * 24 + target;
    if idx < 0 || idx >= |values| then 0.0 else values[idx]
  }

  /** The entries of the column of `target` in rows before `n`, added up. */
  function ColumnTotal(values: seq<real>, target: int, n: nat): real {
    if n == 0 then 0.0 else ColumnTotal(values, target, n - 1) + GetMarkovCell(values, n - 1, target)
  }

  function Suspicion(values: seq<real>): real {
    if |values| < 576 then 0.0
    else
      var shell := if GetMarkovCell(values, EXECVE, CONNECT) > 0.1 || GetMarkovCell(values, EXECVE, SOCKET) > 0.1 then 0.3 else 0.0;
      var ptrace := if ColumnTotal(values, PTRACE, 24) > 0.01 then 0.4 else 0.0;
      var mount := if ColumnTotal(values, MOUNT, 24) > 0.01 then 0.3 else 0.0;
      var fork := if GetMarkovCell(values, FORK_CLONE, FORK_CLONE) > 0.3 then 0.4 else 0.0;
      MinReal(1.0, shell + ptrace + mount + fork)
  }

  method CheckSuspiciousSyscallPatterns(values: seq<real>) returns (suspicion: real)
    ensures suspicion == Suspicion(values)
  {
    suspicion := 0.0;
    if |values| < 576 {
      return 0.0;
    }
    var execveToConnect := GetMarkovCell(values, EXECVE, CONNECT);
    var execveToSocket := GetMarkovCell(values, EXECVE, SOCKET);
    if execveToConnect > 0.1 || execveToSocket > 0.1 {
      suspicion := suspicion + 0.3;
    }
    var anyToPtrace := 0.0;
    for i := 0 to 24
      invariant anyToPtrace == ColumnTotal(values, PTRACE, i)
    {
      anyToPtrace := anyToPtrace + GetMarkovCell(values, i, PTRACE);
    }
    if anyToPtrace > 0.01 {
      suspicion := suspicion + 0.4;
    }
    var anyToMount := 0.0;
    for i := 0 to 24
      invariant anyToMount == ColumnTotal(values, MOUNT, i)
    {
      anyToMount := anyToMount + GetMarkovCell(values, i, MOUNT);
    }
    if anyToMount > 0.01 {
      suspicion := suspicion + 0.3;
    }
    var forkToFork := GetMarkovCell(values, FORK_CLONE, FORK_CLONE);
    if forkToFork > 0.3 {
      suspicion := suspicion + 0.4;
    }
    suspicion := MinReal(1.0, suspicion);
  }

  function NetPart(netRatio: real): real {
    if netRatio > 0.4 then (netRatio - 0.4) / (1.0 - 0.4) * 0.2 else 0.0
  }

  function EntropyPart(entropy: real): real {
    if entropy < 1.0 then (1.0 - entropy) / 1.0 * 0.15
    else if entropy > 4.0 then MinReal((entropy - 4.0) / 2.0, 0.15)
    else 0.0
  }

  function UniquePart(unique: real): real {
    if unique > 50.0 then MinReal((unique - 50.0) / 100.0, 0.15) else 0.0
  }

  function Deviation(values: seq<real>, b: Baseline): real {
    var net := if |values| > 579 then Abs(values[579] - b.avgNetRatio) * 0.3 else 0.0;
    var entropy := if |values| > 577 then Abs(values[577] - b.avgEntropy) / 4.0 * 0.4 else 0.0;
    var unique := if |values| > 576 then Abs(values[576] - b.avgUniqueTwoGrams) / 50.0 * 0.3 else 0.0;
    MinReal(1.0, net + entropy + unique)
  }

  function HeuristicScore(values: seq<real>, baseline: Option<Baseline>): real {
    MinReal(1.0,
            Suspicion(values) * 0.3
            + (if |values| > 579 then NetPart(values[579]) else 0.0)
            + (if |values| > 577 then EntropyPart(values[577]) else 0.0)
            + (if |values| > 576 then UniquePart(values[576]) else 0.0)
            + (match baseline case Some(b) => Deviation(values, b) * 0.2 case None => 0.0))
  }

  method CalculateHeuristicScore(values: seq<real>, baseline: Option<Baseline>) returns (score: real)
    ensures score == HeuristicScore(values, baseline)
  {
    var suspicion := CheckSuspiciousSyscallPatterns(values);
    score := suspicion * 0.3;
    if |values| > 579 {
      var netRatio := values[579];
      if netRatio > 0.4 {
        score := score + (netRatio - 0.4) / (1.0 - 0.4) * 0.2;
      }
    }
    if |values| > 577 {
      var entropy := values[577];
      if entropy < 1.0 {
        score := score + (1.0 - entropy) / 1.0 * 0.15;
      } else if entropy > 4.0 {
        score := score + MinReal((entropy - 4.0) / 2.0, 0.15);
      }
    }
    if |values| > 576 {
      var unique := values[576];
      if unique > 50.0 {
        score := score + MinReal((unique - 50.0) / 100.0, 0.15);
      }
    }
    if baseline.Some? {
      score := score + Deviation(values, baseline.value) * 0.2;
    }
    score := MinReal(1.0, score);
  }

  function ScoreOf(values: seq<real>, baseline: Option<Baseline>): Score {
    if values == [] then Score(0.0, false)
    else var score := HeuristicScore(values, baseline); Score(score, score > 0.6)
  }

  // ---- training: versions and baselines ----

  function Usable(data: seq<seq<real>>): seq<seq<real>> {
    if data == [] then []
    else Usable(data[..|data| - 1]) + if |data[|data| - 1]| > 581 then [data[|data| - 1]] else []
  }

  function EntrySum(data: seq<seq<real>>, i: nat): real
    requires forall v <- data :: i < |v|
  {
    if data == [] then 0.0 else EntrySum(data[..|data| - 1], i) + data[|data| - 1][i]
  }

  lemma {:induction false} UsableAreLong(data: seq<seq<real>>)
    ensures forall v <- Usable(data) :: |v| > 581
  {
    if data != [] { UsableAreLong(data[..|data| - 1]); }
  }

  /** The averages over the vectors long enough to have all statistics, or fixed values if there are none. */
  ghost predicate IsBaseline(data: seq<seq<real>>, b: Baseline) {
    var usable := Usable(data);
    UsableAreLong(data);
    if usable == [] then b == Baseline(0.1, 2.0, 20.0)
    else var n := |usable| as real;
      b == Baseline(EntrySum(usable, 579) / n, EntrySum(usable, 577) / n, EntrySum(usable, 576) / n)
  }

  method ComputeBaseline(data: seq<seq<real>>) returns (b: Baseline)
    ensures IsBaseline(data, b)
  {
    var sumNetRatio, sumEntropy, sumUnique, count := 0.0, 0.0, 0.0, 0;
    UsableAreLong([]);
    for i := 0 to |data|
      invariant count == |Usable(data[..i])| && (forall v <- Usable(data[..i]) :: |v| > 581)
      invariant sumNetRatio == EntrySum(Usable(data[..i]), 579)
      invariant sumEntropy == EntrySum(Usable(data[..i]), 577)
      invariant sumUnique == EntrySum(Usable(data[..i]), 576)
    {
      assert data[..i + 1][..i] == data[..i];
      UsableAreLong(data[..i + 1]);
      var v := data[i];
      if |v| > 581 {
        assert Usable(data[..i + 1])[..count] == Usable(data[..i]);
        sumNetRatio := sumNetRatio + v[579];
        sumEntropy := sumEntropy + v[577];
        sumUnique := sumUnique + v[576];
        count := count + 1;
      } else {
        assert Usable(data[..i + 1]) == Usable(data[..i]);
      }
    }
    assert data[..|data|] == data;
    if count == 0 {
      return Baseline(0.1, 2.0, 20.0);
    }
    b := Baseline(sumNetRatio / count as real, sumEntropy / count as real, sumUnique / count as real);
  }

  class InProcessAdapter {
    var versions: map<ContainerId, int>
    var baselines: map<ContainerId, Baseline>

    constructor ()
      ensures versions == map[] && baselines == map[]
    {
      versions, baselines := map[], map[];
    }

    function BaselineOf(id: ContainerId): Option<Baseline>
      reads this
    {
      if id in baselines then Some(baselines[id]) else None
    }

    method ScoreWindow(id: ContainerId, values: seq<real>) returns (s: Score)
      ensures s == ScoreOf(values, BaselineOf(id))
    {
      if values == [] {
        return Score(0.0, false);
      }
      var score := CalculateHeuristicScore(values, BaselineOf(id));
      s := Score(score, score > 0.6);
    }

    /** Training replaces the baseline only when there is data, and always counts the version up. */
    method TrainModel(id: ContainerId, data: seq<seq<real>>)
      modifies this
      ensures versions == old(versions)[id := (if id in old(versions) then old(versions)[id] else 0) + 1]
      ensures if data == [] then baselines == old(baselines)
              else id in baselines && baselines == old(baselines)[id := baselines[id]] && IsBaseline(data, baselines[id])
    {
      var currentVersion := if id in versions then versions[id] else 0;
      if data != [] {
        var stats := ComputeBaseline(data);
        baselines := baselines[id := stats];
      }
      versions := versions[id := currentVersion + 1];
    }
  }

  // ---- the scorer over the extractor's output ----

  /** The scorer reads back the frequency the extractor wrote. */
  lemma ReadsPairFrequency(rs: seq<Record>, ln: real -> real, a: Symbol, b: Symbol)
    requires rs != []
    ensures GetMarkovCell(JavaVector(rs, ln), a, b) == Cell(JavaSymbols(rs), a, b)
  {
    hide Pairs, Outgoing, PairEntropy, Support, Share, Cells, BucketRatios;
    Layout(JavaSymbols(rs), ClassCount(rs, 0), ClassCount(rs, 1), DurationSec(rs), ln, JavaBuckets(rs));
    FlatIndex(24 * a + b, a, b);
    var v := JavaVector(rs, ln);
    assert v[24 * a + b] == v[..576][24 * a + b];
  }

  /** No window without the pattern's pairs raises the column signals, and one frequent pair does. */
  lemma {:induction false} ColumnTotalOf(rs: seq<Record>, ln: real -> real, b: Symbol, n: nat)
    requires rs != [] && n <= 24
    ensures var total := ColumnTotal(JavaVector(rs, ln), b, n);
            && 0.0 <= total
            && (total == 0.0 <==> forall a: Symbol :: a < n ==> Pairs(JavaSymbols(rs), a, b) == 0)
            && (forall a: Symbol :: a < n ==> Cell(JavaSymbols(rs), a, b) <= total)
  {
    hide Pairs, Outgoing, Cell, JavaVector, JavaSymbols;
    if n > 0 {
      ColumnTotalOf(rs, ln, b, n - 1);
      ReadsPairFrequency(rs, ln, n - 1, b);
      CellTimesOutgoing(JavaSymbols(rs), n - 1, b);
    }
  }

  lemma SuspicionRange(values: seq<real>)
    ensures 0.0 <= Suspicion(values) <= 1.0
  {
  }

  /** What the four statistics the scorer reads can be. */
  lemma StatisticsRange(rs: seq<Record>, ln: real -> real)
    requires IsLn(ln) && 0 < |rs| <= 0x7fff_ffff
    ensures var v := JavaVector(rs, ln);
            && |v| == 594 && 0.0 <= v[579] <= 1.0 && -EPSILON <= v[577] && 0.0 <= v[576]
            && (v[576] > 50.0 ==> 0.0 <= v[577])
  {
    hide Pairs, Outgoing, PairEntropy, Support, Share, Cells, BucketRatios, Markov, IsLn;
    var s := JavaSymbols(rs);
    Layout(s, ClassCount(rs, 0), ClassCount(rs, 1), DurationSec(rs), ln, JavaBuckets(rs));
    ClassCountBound(rs, 1);
    ShareOrder(0, ClassCount(rs, 1), |s|);
    ShareOrder(ClassCount(rs, 1), |s|, |s|);
    ShareEnds(|s|);
    if |s| >= 2 { EntropyBounds(s, ln); } else { SingleRecord(s, ln); }
  }

  lemma {:induction false} ClassCountBound(rs: seq<Record>, argClass: int)
    ensures ClassCount(rs, argClass) <= |rs|
  {
    if rs != [] { ClassCountBound(rs[..|rs| - 1], argClass); }
  }

  lemma PartsRange(net: real, entropy: real, unique: real)
    requires 0.0 <= net <= 1.0 && -EPSILON <= entropy && 0.0 <= unique && (unique > 50.0 ==> 0.0 <= entropy)
    ensures 0.0 <= NetPart(net) <= 0.2 && 0.0 <= EntropyPart(entropy) && 0.0 <= UniquePart(unique)
    ensures EntropyPart(entropy) + UniquePart(unique) <= 0.3
  {
  }

  lemma DeviationRange(values: seq<real>, b: Baseline)
    ensures 0.0 <= Deviation(values, b) <= 1.0
  {
  }

  /**
   * The score of a window, for any records the server can hold: in [0, 1]; at most 0.8 without a baseline; and
   * without a baseline or a suspicious pattern never anomalous.
   */
  lemma ScoreOfWindow(rs: seq<Record>, ln: real -> real, baseline: Option<Baseline>)
    requires IsLn(ln) && |rs| <= 0x7fff_ffff
    ensures var v := JavaVector(rs, ln); var s := ScoreOf(v, baseline);
            && 0.0 <= s.score <= 1.0
            && (baseline.None? ==> s.score <= 0.8)
            && (baseline.None? && Suspicion(v) == 0.0 ==> s.score <= 0.5 && !s.anomalous)
  {
    hide IsLn, Suspicion, NetPart, EntropyPart, UniquePart, Deviation, Stats, Markov, BucketRatios, JavaSymbols, JavaBuckets;
    if rs != [] {
      var v := JavaVector(rs, ln);
      StatisticsRange(rs, ln);
      SuspicionRange(v);
      PartsRange(v[579], v[577], v[576]);
      if baseline.Some? { DeviationRange(v, baseline.value); }
    }
  }
}
