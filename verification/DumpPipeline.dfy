/** From kernel events to training windows: agent, file, parser and splitter put together. */
module DumpPipeline {
  import opened Common
  import opened Widths
  import opened Trace
  import opened DumpFormat
  import opened AgentSpec
  import opened AgentRuns
  import opened DumpRuns
  import opened Drift
  import Windower

  /** A file of any run parses to its dump's own header and to the deltas of exactly the events that dump took. */
  lemma FileParses(cfg: Config, ins: seq<Input>, c: ContainerId, f: DumpFile, j: nat, n: nat)
    requires WrittenBy(cfg, ins, c, f, j, n)
    ensures var startNs := DumpOf(cfg, ins, j).startNs;
            Parse(f.bytes) == Parsed(Header(1, cfg.syscallVocabSize % 0x1_0000_0000, StoredId(c), startNs),
                                     Deltas(startNs, EventsOf(ins[j + 1..n], c)))
  {
    hide Step, Run, LastRequest, OpenUntil, Parse, Deltas;
    var startNs := DumpOf(cfg, ins, j).startNs;
    ParseOfFile(DumpHeader(cfg, c, startNs), Deltas(startNs, EventsOf(ins[j + 1..n], c)));
  }

  /** The windows a reader splits the file into. */
  function WindowsOf(f: DumpFile, w: int): seq<seq<PackedRecord>>
    requires 0 < w
  {
    match Parse(f.bytes)
    case Parsed(_, records) => Windower.Bodies(Windower.Group(records, w))
    case TooSmall(_) => []
  }

  /**
   * End to end. For any file of any run and any window length, parsing the file and splitting it gives windows whose
   * concatenation says, in order, exactly what the container's events said from the request that opened the file to
   * the event that ended its dump or the request that broke it. Where events are handled in stamp order and it was
   * an event, those are all the events of the dump's interval if and only if none comes from before its start.
   */
  lemma DumpToWindows(cfg: Config, ins: seq<Input>, c: ContainerId, i: nat, w: int)
    requires i < |LogOf(Run(cfg, ins), c).files| && 0 < w
    ensures exists j: nat, n: nat ::
              && WrittenBy(cfg, ins, c, LogOf(Run(cfg, ins), c).files[i], j, n)
              && RecordKinds(Concat(WindowsOf(LogOf(Run(cfg, ins), c).files[i], w))) ==
                 EventKinds(EventsOf(ins[j + 1..n], c))
              && (InStampOrder(ins, j) && !ins[n].Request? ==> CompleteFromStart(ins, j, n, DumpOf(cfg, ins, j)))
  {
    hide Step, Run, LogOf, WrittenBy, WindowsOf, EventKinds, RecordKinds;
    EveryFileIsWritten(cfg, ins, c, i);
    var f := LogOf(Run(cfg, ins), c).files[i];
    var j, n :| WrittenBy(cfg, ins, c, f, j, n);
    FileTells(cfg, ins, c, f, j, n, w);
  }

  /** `EventsOf(ins[j + 1..n], d.id)` are all the events of the dump's interval exactly if none is from before its start. */
  predicate CompleteFromStart(ins: seq<Input>, j: nat, n: nat, d: Dump)
    requires j < n <= |ins|
  {
    EventsOf(ins[j + 1..n], d.id) == Inside(EventsOf(ins[j + 1..], d.id), d.startNs, d.EndNs())
    <==> forall x <- EventsOf(ins[j + 1..n], d.id) :: d.startNs <= x.tsNs
  }

  lemma FileTells(cfg: Config, ins: seq<Input>, c: ContainerId, f: DumpFile, j: nat, n: nat, w: int)
    requires WrittenBy(cfg, ins, c, f, j, n) && 0 < w
    ensures j < n < |ins| && ins[j].Request? && DumpOf(cfg, ins, j).id == c
    ensures RecordKinds(Concat(WindowsOf(f, w))) == EventKinds(EventsOf(ins[j + 1..n], c))
    ensures InStampOrder(ins, j) && !ins[n].Request? ==> CompleteFromStart(ins, j, n, DumpOf(cfg, ins, j))
  {
    hide Step, Run, LastRequest, OpenUntil, Parse, Deltas, EventKinds, RecordKinds, Windower.Group, Windower.Bodies;
    var startNs, es := DumpOf(cfg, ins, j).startNs, EventsOf(ins[j + 1..n], c);
    FileParses(cfg, ins, c, f, j, n);
    Windower.SplitIsPartition(Deltas(startNs, es), w);
    DeltasKeepKinds(startNs, es);
    if InStampOrder(ins, j) && !ins[n].Request? {
      OrderedEventsComplete(cfg, ins, j, n, DumpOf(cfg, ins, j));
    }
  }

  lemma {:induction false} OrderedElapsed(startNs: u64, es: seq<Event>, endNs: int)
    requires Ordered(startNs, es) && startNs <= endNs && (forall x <- es :: x.tsNs < endNs)
    ensures 0 <= Elapsed(startNs, es) <= endNs - startNs
  {
    if es != [] {
      ElapsedGrows(startNs, es);
      assert es[|es| - 1] in es;
    }
  }

  /** After each of the records read from `f` the reader is behind the events by at most 999 ns a record, and not ahead. */
  ghost predicate ReadInTime(f: DumpFile, startNs: u64, es: seq<Event>) {
    Parse(f.bytes).Parsed? && |Parse(f.bytes).records| == |es| &&
    forall m :: 0 <= m <= |es| ==> 0 <= Elapsed(startNs, es[..m]) - 1000 * Windower.Total(Parse(f.bytes).records[..m]) <= 999 * m
  }

  /**
   * Reading any file of any run with up to 2^30 records, whatever the stamps: the reader's clock is right throughout
   * if and only if the dump took its events in the order of their stamps, none before its start, and no gap is cut;
   * in a dump of at most 4294 seconds the order alone decides.
   */
  lemma DumpClockIff(cfg: Config, ins: seq<Input>, c: ContainerId, f: DumpFile, j: nat, n: nat)
    requires WrittenBy(cfg, ins, c, f, j, n) && |EventsOf(ins[j + 1..n], c)| <= 0x4000_0000
    ensures var d, es := DumpOf(cfg, ins, j), EventsOf(ins[j + 1..n], c);
            && (ReadInTime(f, d.startNs, es) <==> Ordered(d.startNs, es) && GapsFit(d.startNs, es))
            && (0 <= d.durationSec <= 4294 && d.startNs + d.durationSec * NS_PER_SEC < TWO64 ==>
                (ReadInTime(f, d.startNs, es) <==> Ordered(d.startNs, es)))
  {
    hide Step, Run, LastRequest, OpenUntil, Parse, Deltas, Image, DumpOf, Ordered, GapsFit, Elapsed, Windower.Total;
    var d, es := DumpOf(cfg, ins, j), EventsOf(ins[j + 1..n], c);
    FileParses(cfg, ins, c, f, j, n);
    ClockIsRightIff(d.startNs, es);
    forall m | 0 <= m <= |es| ensures Parse(f.bytes).records[..m] == Deltas(d.startNs, es[..m]) {
      DeltasOfPrefix(d.startNs, es, m);
    }
    if 0 <= d.durationSec <= 4294 && d.startNs + d.durationSec * NS_PER_SEC < TWO64 && Ordered(d.startNs, es) {
      DumpOfKeepsId(cfg, ins, j);
      EarlyEventsComeBeforeTheEnd(ins, j, n, d);
      EndsWithin(d);
      OrderedElapsed(d.startNs, es, d.EndNs());
      ShortDumpGapsFit(d.startNs, es);
    }
  }

  lemma EndsWithin(d: Dump)
    requires 0 <= d.durationSec <= 4294 && d.startNs + d.durationSec * NS_PER_SEC < TWO64
    ensures d.startNs <= d.EndNs() <= d.startNs + 4_294_000_000_000
  {
    SecToNsExact(d.durationSec);
  }

  /** Reading the file of any dump of at most 4294 seconds: after `m` records the clock lags as `ReaderLag` bounds it. */
  lemma DumpClock(cfg: Config, ins: seq<Input>, c: ContainerId, f: DumpFile, j: nat, n: nat, w: int, m: nat)
    requires WrittenBy(cfg, ins, c, f, j, n) && 0 < w && m <= |EventsOf(ins[j + 1..n], c)|
    requires var d := DumpOf(cfg, ins, j);
             && Ordered(d.startNs, EventsOf(ins[j + 1..n], c))
             && 0 <= d.durationSec <= 4294 && d.startNs + d.durationSec * NS_PER_SEC < TWO64
    ensures var parsed, es := Parse(f.bytes), EventsOf(ins[j + 1..n], c)[..m];
            && parsed.Parsed? && m <= |parsed.records|
            && KeepsUp(Elapsed(DumpOf(cfg, ins, j).startNs, es), Windower.Total(parsed.records[..m]), m, w)
  {
    hide Step, Run, LastRequest, OpenUntil, Parse, Deltas, Image, DumpOf, EventsOf, Windower.Total, KeepsUp;
    var d, es := DumpOf(cfg, ins, j), EventsOf(ins[j + 1..n], c);
    FileParses(cfg, ins, c, f, j, n);
    DumpOfKeepsId(cfg, ins, j);
    EarlyEventsComeBeforeTheEnd(ins, j, n, d);
    EndsWithin(d);
    OrderedElapsed(d.startNs, es[..m], d.EndNs());
    ShortDumpGapsFit(d.startNs, es[..m]);
    DeltasOfPrefix(d.startNs, es, m);
    ReaderLag(d.startNs, es[..m], w);
  }
}
