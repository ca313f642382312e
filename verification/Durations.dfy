/** The duration entries of the vectors, against the true duration of the windows they are computed from. */
module Durations {
  import opened Widths
  import opened Trace
  import opened Alphabet
  import opened Counting
  import opened RealArith
  import opened Features
  import opened FeatureTheorems
  import Windower

  /** Both extractors write the last record's delta in seconds, and that divided by the number of records. */
  lemma DurationEntries(rs: seq<Record>, ln: real -> real)
    requires rs != []
    ensures var j, p := JavaVector(rs, ln), PyVector(rs, ln);
            && |j| == |p| == 594
            && j[580] == p[580] == rs[|rs| - 1].deltaUs as real / 1_000_000.0
            && Mul(j[581], |rs| as real) == j[580] && Mul(p[581], |rs| as real) == p[580]
  {
    hide PairEntropy, Support, Share, Cells, Markov, BucketRatios, JavaSymbol, PySymbol, ClassCount;
    MeanTimesCount(JavaSymbols(rs), ClassCount(rs, 0), ClassCount(rs, 1), DurationSec(rs), ln, JavaBuckets(rs));
    MeanTimesCount(PySymbols(rs), ClassCount(rs, 1), ClassCount(rs, 2), DurationSec(rs), ln, PyBuckets(rs));
  }

  lemma MeanTimesCount(s: seq<Symbol>, f: nat, n: nat, d: real, ln: real -> real, bs: seq<Bucket>)
    requires s != [] && bs != []
    ensures var v := Markov(s, 576) + Stats(s, f, n, d, ln) + BucketRatios(bs, 12);
            |v| == 594 && v[580] == d && Mul(v[581], |s| as real) == d
  {
    hide PairEntropy, Support, Share, Cells, Markov, BucketRatios;
    Layout(s, f, n, d, ln, bs);
    MarkovLengths(s, bs);
    var v := Markov(s, 576) + Stats(s, f, n, d, ln) + BucketRatios(bs, 12);
    assert v[581] == Stats(s, f, n, d, ln)[5] == d / |s| as real;
  }

  /** The server holds a delta in a signed 32-bit field. */
  predicate FitsServer(rs: seq<Record>) { forall r <- rs :: -0x8000_0000 <= r.deltaUs < 0x8000_0000 }

  /** A payload none of whose events comes before its start or after its last does so exactly if it spans less than 2^31 microseconds. */
  lemma PayloadFitsIff(startNs: u64, es: seq<Event>)
    requires es != [] && forall x <- es :: startNs <= x.tsNs <= es[|es| - 1].tsNs
    ensures FitsServer(WindowRecords(startNs, es)) <==> (es[|es| - 1].tsNs - startNs) / 1000 < 0x8000_0000
  {
    var rs, n := WindowRecords(startNs, es), |es| - 1;
    forall i | 0 <= i <= n ensures rs[i].deltaUs == (es[i].tsNs - startNs) / 1000 && startNs <= es[i].tsNs <= es[n].tsNs {
      assert es[i] in es;
      Sub64Exact(es[i].tsNs, startNs);
    }
    assert rs[n] in rs;
  }

  /** On such a payload, whose deltas count from the window's start, the server's entry is true to a microsecond. */
  lemma ServerDurationIsTrue(startNs: u64, es: seq<Event>, ln: real -> real)
    requires es != [] && startNs <= es[|es| - 1].tsNs && FitsServer(WindowRecords(startNs, es))
    ensures var v := JavaVector(WindowRecords(startNs, es), ln);
            |v| == 594 && 0.0 <= (es[|es| - 1].tsNs - startNs) as real / 1_000_000_000.0 - v[580] < 0.000001
  {
    hide JavaVector, PyVector;
    DurationEntries(WindowRecords(startNs, es), ln);
    WindowTimesDoNotDrift(startNs, es, |es| - 1);
  }

  /** The microseconds from the beginning of the `j`-th window's period to its last record. */
  function WindowTime(rs: seq<PackedRecord>, w: int, j: nat): int
    requires 0 < w && j < |Windower.Group(rs, w)|
  {
    var ws := Windower.Group(rs, w);
    Windower.WindowAt(rs, w, j);
    Windower.Total(rs[..Windower.Before(ws, j) + |ws[j].records|]) - Windower.PeriodStart(w, ws[j].index)
  }

  /** All records of the `j`-th window but the last fall on the very beginning of its period. */
  predicate AllButLastAtStart(rs: seq<PackedRecord>, w: int, j: nat)
    requires 0 < w && j < |Windower.Group(rs, w)|
  {
    var ws := Windower.Group(rs, w);
    var s := Windower.Before(ws, j);
    Windower.WindowAt(rs, w, j);
    forall i :: s < i < s + |ws[j].records| ==> Windower.Total(rs[..i]) == Windower.PeriodStart(w, ws[j].index)
  }

  /**
   * On a window of a dump, whose deltas count from the record before, the tool's entry is only the last gap. It is
   * the time from the beginning of the window's period if and only if all records but the last fall on that
   * beginning, and a record alone is in the very first period with none before it.
   */
  lemma ToolDurationIsTrueIff(rs: seq<PackedRecord>, w: int, j: nat, ln: real -> real)
    requires 0 < w && j < |Windower.Group(rs, w)|
    ensures var window := Windower.Group(rs, w)[j];
            var v := PyVector(window.records, ln);
            && |v| == 594
            && (v[580] == WindowTime(rs, w, j) as real / 1_000_000.0 <==>
                AllButLastAtStart(rs, w, j) && (|window.records| == 1 ==> j == 0 && window.index == 0))
  {
    hide PyVector, JavaVector, Windower.Group, Windower.Total, Windower.TimeIndex, Windower.PeriodStart;
    var window := Windower.Group(rs, w)[j];
    Windower.WindowAt(rs, w, j);
    DurationEntries(window.records, ln);
    LastGapIff(rs, w, j);
  }

  /** The gap before the last record is the window's whole time exactly if what came before it had just reached the period. */
  lemma LastGapIff(rs: seq<PackedRecord>, w: int, j: nat)
    requires 0 < w && j < |Windower.Group(rs, w)|
    ensures var window := Windower.Group(rs, w)[j];
            && window.records != []
            && (window.records[|window.records| - 1].deltaUs == WindowTime(rs, w, j) <==>
                AllButLastAtStart(rs, w, j) && (|window.records| == 1 ==> j == 0 && window.index == 0))
  {
    hide Windower.Group, Windower.Total, Windower.TimeIndex, Windower.PeriodStart, Windower.Before;
    var ws := Windower.Group(rs, w);
    var s, e, q := Windower.Before(ws, j), Windower.Before(ws, j) + |ws[j].records|, ws[j].index;
    Windower.WindowAt(rs, w, j);
    assert rs[e - 1] == ws[j].records[|ws[j].records| - 1];
    Windower.TotalExtend(rs, e - 1);
    if e - 1 == s {
      Windower.StartIffFirst(rs, w, s, q);
    } else {
      forall i | s < i < e ensures Windower.PeriodStart(w, q) <= Windower.Total(rs[..i]) <= Windower.Total(rs[..e - 1]) {
        Windower.InItsPeriod(Windower.Total(rs[..i]), w);
        Windower.TotalMonotone(rs, i, e - 1);
      }
    }
  }
}
