/** Long dumps over whole runs of the agent: what each file holds and how often its completion is announced. */
module DumpRuns {
  import opened Common
  import opened Widths
  import opened Trace
  import opened DumpFormat
  import opened AgentSpec
  import opened AgentRuns

  predicate Dumping(s: State, c: ContainerId) { BufferOf(s, c).isLongDumpActive }

  /** The flag and the stream never disagree. */
  predicate FlagMatchesStream(b: Buffer) { b.isLongDumpActive <==> b.longDumpStream.Open? }

  predicate Begins(s: State, input: Input, c: ContainerId) {
    input.Request? && input.id == c && input.fileOpens && !Dumping(s, c)
  }

  /** How many dumps of `c` a run has begun. */
  function Begun(cfg: Config, ins: seq<Input>, c: ContainerId): nat {
    if ins == [] then 0
    else
      var n := |ins| - 1;
      Begun(cfg, ins[..n], c) + Bit(Begins(Run(cfg, ins[..n]), ins[n], c))
  }

  // ---- exactly one completion notice ----

  predicate Accounted(slot: Slot, begun: nat) {
    && FlagMatchesStream(slot.buf)
    && |slot.log.files| == |slot.log.notices|
    && |slot.log.notices| + Bit(slot.buf.isLongDumpActive) == begun
  }

  lemma TakeAccounts(cfg: Config, slot: Slot, e: Event, begun: nat)
    requires Accounted(slot, begun)
    ensures Accounted(Take(cfg, slot, e), begun)
  {
    var appended := AppendLongDump(slot.(buf := Accumulate(slot.buf, e)), e);
    assert Accounted(appended, begun);
  }

  lemma ExpireAccounts(slot: Slot, nowNs: u64, begun: nat)
    requires Accounted(slot, begun)
    ensures Accounted(Expire(slot, nowNs), begun)
  {
  }

  lemma StepAccounts(cfg: Config, slot: Slot, input: Input, c: ContainerId, known: bool, begun: nat)
    requires Accounted(slot, begun)
    ensures Accounted(StepSlot(cfg, slot, input, c, known),
                      begun + Bit(input.Request? && input.id == c && input.fileOpens && !slot.buf.isLongDumpActive))
  {
    if IsEventOf(input, c) {
      TakeAccounts(cfg, slot, input.event, begun);
      ExpireAccounts(Take(cfg, slot, input.event), input.event.tsNs, begun);
    }
  }

  /**
   * Exactly once. In every run, with any timestamps and even with requests that reopen an open dump: each dump
   * begun is either still open or has closed its file and announced it once, whichever of the two closing
   * paths ended it.
   */
  lemma {:induction false} OneNoticePerDump(cfg: Config, ins: seq<Input>, c: ContainerId)
    ensures Accounted(SlotOf(Run(cfg, ins), c), Begun(cfg, ins, c))
  {
    if ins != [] {
      var n := |ins| - 1;
      var s := Run(cfg, ins[..n]);
      OneNoticePerDump(cfg, ins[..n], c);
      StepAtContainer(cfg, s, ins[n], c);
      StepAccounts(cfg, SlotOf(s, c), ins[n], c, c in s.buffers, Begun(cfg, ins[..n], c));
    }
  }

  lemma TakeOnlyAppends(cfg: Config, slot: Slot, e: Event)
    ensures slot.log.files <= Take(cfg, slot, e).log.files && slot.log.notices <= Take(cfg, slot, e).log.notices
  {
    var appended := AppendLongDump(slot.(buf := Accumulate(slot.buf, e)), e);
    assert slot.log.files <= appended.log.files && slot.log.notices <= appended.log.notices;
  }

  lemma StepOnlyAppends(cfg: Config, s: State, input: Input, c: ContainerId)
    ensures LogOf(s, c).files <= LogOf(Step(cfg, s, input), c).files
    ensures LogOf(s, c).notices <= LogOf(Step(cfg, s, input), c).notices
  {
    StepAtContainer(cfg, s, input, c);
    if IsEventOf(input, c) {
      TakeOnlyAppends(cfg, SlotOf(s, c), input.event);
    }
  }

  /** What has been closed or announced stays as it is. */
  lemma {:induction false} LogsOnlyGrow(cfg: Config, ins: seq<Input>, k: nat, c: ContainerId)
    requires k <= |ins|
    ensures LogOf(Run(cfg, ins[..k]), c).files <= LogOf(Run(cfg, ins), c).files
    ensures LogOf(Run(cfg, ins[..k]), c).notices <= LogOf(Run(cfg, ins), c).notices
  {
    hide Step;
    if k == |ins| {
      assert ins[..k] == ins;
    } else {
      var n := |ins| - 1;
      LogsOnlyGrow(cfg, ins[..n], k, c);
      assert ins[..n][..k] == ins[..k];
      StepOnlyAppends(cfg, Run(cfg, ins[..n]), ins[n], c);
    }
  }

  // ---- what a dump file holds ----

  /**
   * One dump: whose it is, what the request fixed, and what had been logged for the container before it. Where the
   * request came while a dump was open, `broken` is that dump's file as it stood: its stream is kept, but what is
   * written from then on is lost.
   */
  datatype Dump = Dump(id: ContainerId, path: string, startNs: u64, durationSec: int, before: Log, broken: Option<DumpFile>) {
    function EndNs(): u64 { DumpEnd(startNs, durationSec) }
  }

  /** The bytes of a dump that has seen the events `es`. */
  function Image(cfg: Config, d: Dump, es: seq<Event>): (b: seq<byte>)
    ensures |b| == HEADER_SIZE + 8 * |es|
  {
    EncodeHeader(DumpHeader(cfg, d.id, d.startNs)) + EncodeRecords(Deltas(d.startNs, es))
  }

  /** The file a dump leaves behind after the events `es`. */
  function FileOf(cfg: Config, d: Dump, es: seq<Event>): DumpFile {
    match d.broken
    case Some(f) => f
    case None => DumpFile(d.path, Image(cfg, d, es))
  }

  function StreamOf(cfg: Config, d: Dump, es: seq<Event>): Stream {
    Open(FileOf(cfg, d, es).path, d.broken.None?, FileOf(cfg, d, es).bytes)
  }

  /** The dump is open, has taken exactly `es`, and nothing of its container was closed or announced meanwhile. */
  predicate InProgress(cfg: Config, slot: Slot, d: Dump, es: seq<Event>) {
    var b := slot.buf;
    && b.isLongDumpActive
    && b.longDumpStream == StreamOf(cfg, d, es)
    && b.longDumpStartTsNs == d.startNs
    && b.longDumpEndTsNs == d.EndNs()
    && b.lastDumpTsNs == LastTs(es)
    && b.longDumpFilePath == d.path
    && b.longDumpRecordCount == |es|
    && b.longDumpDurationSec == d.durationSec
    && slot.log.files == d.before.files
    && slot.log.notices == d.before.notices
  }

  /** The dump is over: its file and its one notice are appended, and they agree on the record count. */
  predicate Announced(cfg: Config, slot: Slot, d: Dump, es: seq<Event>) {
    && !slot.buf.isLongDumpActive
    && slot.log.files == d.before.files + [FileOf(cfg, d, es)]
    && slot.log.notices == d.before.notices + [Notice(d.path, d.startNs, d.durationSec, |es|)]
  }

  lemma ImageGrows(cfg: Config, d: Dump, es: seq<Event>, e: Event)
    ensures Image(cfg, d, es + [e]) == Image(cfg, d, es) + EncodeRecord(MakeTraceRecord(e, Previous(d.startNs, es)))
  {
    hide MakeTraceRecord, EncodeRecord, EncodeHeader, DumpHeader, Deltas, EncodeRecords;
    DeltasExtend(d.startNs, es, e);
    EncodeRecordsExtend(Deltas(d.startNs, es), MakeTraceRecord(e, Previous(d.startNs, es)));
  }

  /** Flushing the short window does not touch the dump. */
  lemma TakeDumps(cfg: Config, slot: Slot, e: Event)
    ensures var appended, taken := AppendLongDump(slot.(buf := Accumulate(slot.buf, e)), e), Take(cfg, slot, e);
            && taken.buf.(currentShortWindow := [], windowStartTsNs := 0) == appended.buf.(currentShortWindow := [], windowStartTsNs := 0)
            && taken.log.files == appended.log.files && taken.log.notices == appended.log.notices
  {
  }

  lemma OwnEventIsTaken(cfg: Config, slot: Slot, d: Dump, es: seq<Event>, e: Event)
    requires InProgress(cfg, slot, d, es) && e.tsNs < d.EndNs()
    ensures InProgress(cfg, Take(cfg, slot, e), d, es + [e])
  {
    TakeDumps(cfg, slot, e);
    ImageGrows(cfg, d, es, e);
    assert InProgress(cfg, AppendLongDump(slot.(buf := Accumulate(slot.buf, e)), e), d, es + [e]);
  }

  lemma OwnLateEventCloses(cfg: Config, slot: Slot, d: Dump, es: seq<Event>, e: Event)
    requires InProgress(cfg, slot, d, es) && d.EndNs() <= e.tsNs
    ensures Announced(cfg, Take(cfg, slot, e), d, es)
  {
    TakeDumps(cfg, slot, e);
    assert Announced(cfg, AppendLongDump(slot.(buf := Accumulate(slot.buf, e)), e), d, es);
  }

  /** An input that closes every dump ending at `endNs` or before. */
  predicate Closes(input: Input, endNs: u64) { input.Kernel? && input.accepted && endNs <= input.event.tsNs }

  predicate AsksFor(input: Input, c: ContainerId) { input.Request? && input.id == c }

  lemma StepKeepsOpen(cfg: Config, s: State, input: Input, d: Dump, es: seq<Event>)
    requires InProgress(cfg, SlotOf(s, d.id), d, es)
    requires !Closes(input, d.EndNs()) && !AsksFor(input, d.id)
    ensures InProgress(cfg, SlotOf(Step(cfg, s, input), d.id), d, es + EventsOf([input], d.id))
  {
    StepAtContainer(cfg, s, input, d.id);
    assert EventsOf([input], d.id) == if IsEventOf(input, d.id) then [input.event] else [] by { assert EventsOf([], d.id) == []; }
    if IsEventOf(input, d.id) {
      OwnEventIsTaken(cfg, SlotOf(s, d.id), d, es, input.event);
    } else {
      assert es + EventsOf([input], d.id) == es;
    }
  }

  lemma StepClosesDump(cfg: Config, s: State, input: Input, d: Dump, es: seq<Event>)
    requires InProgress(cfg, SlotOf(s, d.id), d, es) && Closes(input, d.EndNs())
    ensures Announced(cfg, SlotOf(Step(cfg, s, input), d.id), d, es)
  {
    StepAtContainer(cfg, s, input, d.id);
    if input.id == d.id {
      OwnLateEventCloses(cfg, SlotOf(s, d.id), d, es, input.event);
    } else {
      assert Announced(cfg, Expire(SlotOf(s, d.id), input.event.tsNs), d, es);
    }
  }

  /** `ins[k]` asks for a dump and is served: it opens a file or breaks an open dump's stream. */
  predicate IsRequest(cfg: Config, ins: seq<Input>, k: nat) {
    k < |ins| && ins[k].Request? && (ins[k].fileOpens || Dumping(Run(cfg, ins[..k]), ins[k].id))
  }

  /** The dump of `slot` that a request for it starts. */
  function DumpFrom(slot: Slot, c: ContainerId, durationSec: int, path: string, clockNs: u64): Dump {
    var broken := match slot.buf.longDumpStream
                  case Open(openPath, _, bytes) => Some(DumpFile(openPath, bytes))
                  case Closed => None;
    Dump(c, path, DumpStart(slot.buf, clockNs), durationSec, slot.log, broken)
  }

  /** The dump `ins[k]` asks for. */
  function DumpOf(cfg: Config, ins: seq<Input>, k: nat): Dump
    requires k < |ins| && ins[k].Request?
  {
    DumpFrom(SlotOf(Run(cfg, ins[..k]), ins[k].id), ins[k].id, ins[k].durationSec, ins[k].path, ins[k].clockNs)
  }

  /** No later request for the container among `ins[k + 1..n]`. */
  predicate LastRequest(ins: seq<Input>, k: nat, n: nat, c: ContainerId)
    requires n <= |ins|
  {
    forall i :: k < i < n ==> !AsksFor(ins[i], c)
  }

  /** No event of any container among `ins[k + 1..n]` closes the dump. */
  predicate OpenUntil(ins: seq<Input>, k: nat, n: nat, d: Dump)
    requires n <= |ins|
  {
    forall i :: k < i < n ==> !Closes(ins[i], d.EndNs())
  }

  lemma OpenDumpStarts(cfg: Config, slot: Slot, c: ContainerId, durationSec: int, path: string, fileOpens: bool, clockNs: u64)
    requires FlagMatchesStream(slot.buf) && (fileOpens || slot.buf.isLongDumpActive)
    ensures InProgress(cfg, OpenDump(cfg, slot, c, durationSec, path, fileOpens, clockNs),
                       DumpFrom(slot, c, durationSec, path, clockNs), [])
  {
    var startNs := DumpStart(slot.buf, clockNs);
    assert Deltas(startNs, []) == [];
    assert [] + EncodeHeader(DumpHeader(cfg, c, startNs)) == EncodeHeader(DumpHeader(cfg, c, startNs)) + EncodeRecords([]);
  }

  lemma RunSnoc(cfg: Config, ins: seq<Input>, n: nat)
    requires n < |ins|
    ensures Run(cfg, ins[..n + 1]) == Step(cfg, Run(cfg, ins[..n]), ins[n])
  {
    assert ins[..n + 1][..n] == ins[..n];
  }

  lemma DumpStarts(cfg: Config, ins: seq<Input>, k: nat, d: Dump)
    requires IsRequest(cfg, ins, k) && d == DumpOf(cfg, ins, k)
    ensures InProgress(cfg, SlotOf(Run(cfg, ins[..k + 1]), d.id), d, [])
  {
    var c, s := ins[k].id, Run(cfg, ins[..k]);
    RunSnoc(cfg, ins, k);
    OneNoticePerDump(cfg, ins[..k], c);
    OpenDumpStarts(cfg, SlotOf(s, c), c, ins[k].durationSec, ins[k].path, ins[k].fileOpens, ins[k].clockNs);
    StepAtContainer(cfg, s, ins[k], c);
  }

  lemma EventsSince(ins: seq<Input>, k: nat, n: nat, c: ContainerId)
    requires k + 1 < n <= |ins|
    ensures EventsOf(ins[k + 1..n], c) == EventsOf(ins[k + 1..n - 1], c) + EventsOf([ins[n - 1]], c)
  {
    assert ins[k + 1..n] == ins[k + 1..n - 1] + [ins[n - 1]];
    EventsOfConcat(ins[k + 1..n - 1], [ins[n - 1]], c);
  }

  lemma RunKeepsOpen(cfg: Config, ins: seq<Input>, n: nat, d: Dump, es: seq<Event>)
    requires n < |ins| && InProgress(cfg, SlotOf(Run(cfg, ins[..n]), d.id), d, es)
    requires !Closes(ins[n], d.EndNs()) && !AsksFor(ins[n], d.id)
    ensures InProgress(cfg, SlotOf(Run(cfg, ins[..n + 1]), d.id), d, es + EventsOf([ins[n]], d.id))
  {
    hide Step, InProgress;
    RunSnoc(cfg, ins, n);
    StepKeepsOpen(cfg, Run(cfg, ins[..n]), ins[n], d, es);
  }

  /** Until something closes it or asks again, a dump has taken every event of the container since it began, and nothing else. */
  lemma {:induction false} DumpGrows(cfg: Config, ins: seq<Input>, k: nat, n: nat, d: Dump)
    requires IsRequest(cfg, ins, k) && d == DumpOf(cfg, ins, k)
    requires k < n <= |ins| && LastRequest(ins, k, n, d.id) && OpenUntil(ins, k, n, d)
    ensures InProgress(cfg, SlotOf(Run(cfg, ins[..n]), d.id), d, EventsOf(ins[k + 1..n], d.id))
    decreases n
  {
    hide Step, Run, InProgress, IsRequest, DumpOf, Closes, AsksFor, DumpEnd;
    if n == k + 1 {
      DumpStarts(cfg, ins, k, d);
      assert ins[k + 1..n] == [];
    } else {
      DumpGrows(cfg, ins, k, n - 1, d);
      EventsSince(ins, k, n, d.id);
      RunKeepsOpen(cfg, ins, n - 1, d, EventsOf(ins[k + 1..n - 1], d.id));
    }
  }

  /** `ins[m]`, the first event of any container stamped at or past the end of the dump `ins[k]` asked for, ends it. */
  predicate EndsAt(cfg: Config, ins: seq<Input>, k: nat, m: nat, d: Dump) {
    && IsRequest(cfg, ins, k) && d == DumpOf(cfg, ins, k)
    && k < m < |ins| && LastRequest(ins, k, m, d.id) && OpenUntil(ins, k, m, d) && Closes(ins[m], d.EndNs())
  }

  lemma DumpEnds(cfg: Config, ins: seq<Input>, k: nat, m: nat, d: Dump)
    requires EndsAt(cfg, ins, k, m, d)
    ensures Announced(cfg, SlotOf(Run(cfg, ins[..m + 1]), d.id), d, EventsOf(ins[k + 1..m], d.id))
  {
    hide Step, InProgress, Announced;
    DumpGrows(cfg, ins, k, m, d);
    RunSnoc(cfg, ins, m);
    StepClosesDump(cfg, Run(cfg, ins[..m]), ins[m], d, EventsOf(ins[k + 1..m], d.id));
  }

  /** After its closing event the dump stays announced, at the place its number gives, to the end of the run. */
  lemma AnnouncedForGood(cfg: Config, ins: seq<Input>, n: nat, d: Dump, es: seq<Event>)
    requires n <= |ins| && Announced(cfg, SlotOf(Run(cfg, ins[..n]), d.id), d, es) && |d.before.files| == |d.before.notices|
    ensures var log, i := LogOf(Run(cfg, ins), d.id), |d.before.files|;
            && i < |log.files| && i < |log.notices|
            && log.files[i] == FileOf(cfg, d, es)
            && log.notices[i] == Notice(d.path, d.startNs, d.durationSec, |es|)
  {
    hide Step, FileOf;
    var early, log, i := LogOf(Run(cfg, ins[..n]), d.id), LogOf(Run(cfg, ins), d.id), |d.before.files|;
    LogsOnlyGrow(cfg, ins, n, d.id);
    assert early.files[i] == log.files[i] && early.notices[i] == log.notices[i];
  }

  /**
   * The finished dump. From its closing event to the end of the run, the next notice of the container names the
   * dump's path and exactly the number of the container's events handled in between, and the next file is the
   * image of those events, 80 bytes and 8 a record; if the request broke an open dump, it is that dump's file.
   */
  lemma DumpFileContents(cfg: Config, ins: seq<Input>, k: nat, m: nat, d: Dump)
    requires EndsAt(cfg, ins, k, m, d)
    ensures var es, i, log := EventsOf(ins[k + 1..m], d.id), |d.before.files|, LogOf(Run(cfg, ins), d.id);
            && i < |log.files| == |log.notices|
            && log.files[i] == FileOf(cfg, d, es)
            && log.notices[i] == Notice(d.path, d.startNs, d.durationSec, |es|)
            && (d.broken.None? ==> |log.files[i].bytes| == 80 + 8 * log.notices[i].recordCount)
  {
    hide Step, Run, Image, OpenUntil, LastRequest, Closes, Begun, EventsOf;
    OneNoticePerDump(cfg, ins[..k], d.id);
    OneNoticePerDump(cfg, ins, d.id);
    DumpEnds(cfg, ins, k, m, d);
    AnnouncedForGood(cfg, ins, m + 1, d, EventsOf(ins[k + 1..m], d.id));
  }

  // ---- these are all the dumps there are ----

  /** `ins[k]` asked for the dump that is open after `ins[..n]`. */
  predicate StillOpen(cfg: Config, ins: seq<Input>, k: nat, n: nat, c: ContainerId) {
    && k < n <= |ins| && IsRequest(cfg, ins, k) && ins[k].id == c
    && LastRequest(ins, k, n, c) && OpenUntil(ins, k, n, DumpOf(cfg, ins, k))
  }

  lemma StillOpenIsInProgress(cfg: Config, ins: seq<Input>, k: nat, n: nat, c: ContainerId)
    requires StillOpen(cfg, ins, k, n, c)
    ensures InProgress(cfg, SlotOf(Run(cfg, ins[..n]), c), DumpOf(cfg, ins, k), EventsOf(ins[k + 1..n], c))
  {
    hide Step, Run, InProgress;
    DumpGrows(cfg, ins, k, n, DumpOf(cfg, ins, k));
  }

  /** A step leaves a dump open that was not only by being its request. */
  lemma OnlyRequestsStart(cfg: Config, s: State, input: Input, c: ContainerId)
    requires Dumping(Step(cfg, s, input), c) && !AsksFor(input, c)
    ensures Dumping(s, c)
  {
    StepAtContainer(cfg, s, input, c);
    if IsEventOf(input, c) { TakeDumps(cfg, SlotOf(s, c), input.event); }
  }

  lemma RequestIsServed(cfg: Config, s: State, input: Input, c: ContainerId)
    requires Dumping(Step(cfg, s, input), c) && AsksFor(input, c) && FlagMatchesStream(BufferOf(s, c))
    ensures input.fileOpens || Dumping(s, c)
  {
    StepAtContainer(cfg, s, input, c);
  }

  /** Every dump open at any moment of any run is the dump of one request. */
  lemma {:induction false} OpenDumpHasRequest(cfg: Config, ins: seq<Input>, n: nat, c: ContainerId)
    requires n <= |ins| && Dumping(Run(cfg, ins[..n]), c)
    ensures exists k :: StillOpen(cfg, ins, k, n, c)
    decreases n
  {
    hide Step, Run, DumpOf, InProgress;
    if n == 0 {
      NothingAtFirst(cfg, ins[..n], c);
    } else {
      var s, input := Run(cfg, ins[..n - 1]), ins[n - 1];
      RunSnoc(cfg, ins, n - 1);
      if AsksFor(input, c) {
        OneNoticePerDump(cfg, ins[..n - 1], c);
        RequestIsServed(cfg, s, input, c);
        assert StillOpen(cfg, ins, n - 1, n, c);
      } else {
        OnlyRequestsStart(cfg, s, input, c);
        OpenDumpHasRequest(cfg, ins, n - 1, c);
        var k :| StillOpen(cfg, ins, k, n - 1, c);
        if Closes(input, DumpOf(cfg, ins, k).EndNs()) {
          DumpOfKeepsId(cfg, ins, k);
          DumpEnds(cfg, ins, k, n - 1, DumpOf(cfg, ins, k));
        }
        assert StillOpen(cfg, ins, k, n, c);
      }
    }
  }

  lemma NothingAtFirst(cfg: Config, ins: seq<Input>, c: ContainerId)
    requires ins == []
    ensures !Dumping(Run(cfg, ins), c) && LogOf(Run(cfg, ins), c) == NEW_LOG
  {
  }

  lemma DumpOfKeepsId(cfg: Config, ins: seq<Input>, k: nat)
    requires k < |ins| && ins[k].Request?
    ensures DumpOf(cfg, ins, k).id == ins[k].id
    ensures DumpOf(cfg, ins, k).before == LogOf(Run(cfg, ins[..k]), ins[k].id)
  {
  }

  /** The `i`-th dump of `c` to end: asked for at `k`, ended at `m`. */
  predicate IsDump(cfg: Config, ins: seq<Input>, c: ContainerId, i: nat, k: nat, m: nat) {
    && k < m < |ins| && IsRequest(cfg, ins, k) && ins[k].id == c
    && EndsAt(cfg, ins, k, m, DumpOf(cfg, ins, k)) && |DumpOf(cfg, ins, k).before.files| == i
  }

  /** Only the event that ends an open dump closes a file. */
  lemma OnlyEndsClose(cfg: Config, s: State, input: Input, c: ContainerId)
    requires FlagMatchesStream(BufferOf(s, c))
    requires LogOf(Step(cfg, s, input), c).files != LogOf(s, c).files
    ensures Dumping(s, c) && Closes(input, BufferOf(s, c).longDumpEndTsNs)
    ensures |LogOf(Step(cfg, s, input), c).files| == |LogOf(s, c).files| + 1
  {
    StepAtContainer(cfg, s, input, c);
    if IsEventOf(input, c) { TakeDumps(cfg, SlotOf(s, c), input.event); }
  }

  /** Each file closed and each notice sent, in every run, is that of one dump, whose contents `DumpFileContents` gives. */
  lemma {:induction false} EveryFileIsADump(cfg: Config, ins: seq<Input>, n: nat, c: ContainerId, i: nat)
    requires n <= |ins| && i < |LogOf(Run(cfg, ins[..n]), c).files|
    ensures exists k, m :: IsDump(cfg, ins, c, i, k, m)
    decreases n
  {
    hide Step, Run, LogOf, DumpOf, Dumping, Announced, Closes, OpenUntil, LastRequest, FlagMatchesStream, Begun;
    if n == 0 {
      NothingAtFirst(cfg, ins[..n], c);
    } else {
      var s, input := Run(cfg, ins[..n - 1]), ins[n - 1];
      RunSnoc(cfg, ins, n - 1);
      if i < |LogOf(s, c).files| {
        EveryFileIsADump(cfg, ins, n - 1, c, i);
      } else {
        OneNoticePerDump(cfg, ins[..n - 1], c);
        OnlyEndsClose(cfg, s, input, c);
        OpenDumpHasRequest(cfg, ins, n - 1, c);
        var k :| StillOpen(cfg, ins, k, n - 1, c);
        DumpOfKeepsId(cfg, ins, k);
        StillOpenIsInProgress(cfg, ins, k, n - 1, c);
        assert IsDump(cfg, ins, c, i, k, n - 1);
      }
    }
  }

  /** `f` is the file that `ins[j]` opened with what its dump had taken when `ins[n]` ended or broke it. */
  predicate WrittenBy(cfg: Config, ins: seq<Input>, c: ContainerId, f: DumpFile, j: nat, n: nat) {
    && n < |ins| && StillOpen(cfg, ins, j, n, c)
    && (Closes(ins[n], DumpOf(cfg, ins, j).EndNs()) || AsksFor(ins[n], c))
    && DumpOf(cfg, ins, j).broken.None?
    && f == DumpFile(DumpOf(cfg, ins, j).path, Image(cfg, DumpOf(cfg, ins, j), EventsOf(ins[j + 1..n], c)))
  }

  lemma {:induction false} BrokenFile(cfg: Config, ins: seq<Input>, k: nat, c: ContainerId)
    requires IsRequest(cfg, ins, k) && ins[k].id == c && DumpOf(cfg, ins, k).broken.Some?
    ensures exists j, n :: WrittenBy(cfg, ins, c, DumpOf(cfg, ins, k).broken.value, j, n)
    decreases k
  {
    hide Step, Run, Image, Begun, OpenUntil, LastRequest;
    OneNoticePerDump(cfg, ins[..k], c);
    OpenDumpHasRequest(cfg, ins, k, c);
    var j :| StillOpen(cfg, ins, j, k, c);
    StillOpenIsInProgress(cfg, ins, j, k, c);
    if DumpOf(cfg, ins, j).broken.Some? {
      BrokenFile(cfg, ins, j, c);
    } else {
      assert WrittenBy(cfg, ins, c, DumpOf(cfg, ins, k).broken.value, j, k);
    }
  }

  /**
   * What every file is. In every run, each file ever closed for a container was opened by one request and holds the
   * image of exactly the container's events from there to the event that ended its dump or the request that broke it.
   */
  lemma EveryFileIsWritten(cfg: Config, ins: seq<Input>, c: ContainerId, i: nat)
    requires i < |LogOf(Run(cfg, ins), c).files|
    ensures exists j, n :: WrittenBy(cfg, ins, c, LogOf(Run(cfg, ins), c).files[i], j, n)
  {
    hide Step, Run, Image, Begun, OpenUntil, LastRequest, LogOf, Closes, DumpOf;
    assert ins[..|ins|] == ins;
    EveryFileIsADump(cfg, ins, |ins|, c, i);
    var k, m :| IsDump(cfg, ins, c, i, k, m);
    DumpOfKeepsId(cfg, ins, k);
    DumpFileContents(cfg, ins, k, m, DumpOf(cfg, ins, k));
    if DumpOf(cfg, ins, k).broken.Some? {
      BrokenFile(cfg, ins, k, c);
    } else {
      assert WrittenBy(cfg, ins, c, LogOf(Run(cfg, ins), c).files[i], k, m);
    }
  }

  // ---- does the notice fit the file? ----

  /** The file and the notice of the dump `d` agree on its path and on the number of records. */
  predicate NoticeFits(cfg: Config, ins: seq<Input>, d: Dump) {
    var i, log := |d.before.files|, LogOf(Run(cfg, ins), d.id);
    && i < |log.files| && i < |log.notices| && log.files[i].path == log.notices[i].dumpPath
    && |log.files[i].bytes| == 80 + 8 * log.notices[i].recordCount
  }

  /** An end that no event can come before, on a file of the same name that holds a header alone. */
  predicate BreaksNothing(d: Dump) {
    d.broken.Some? && d.EndNs() == 0 && d.broken.value.path == d.path && |d.broken.value.bytes| == 80
  }

  lemma DumpOfPrefix(cfg: Config, ins: seq<Input>, more: seq<Input>, k: nat)
    requires IsRequest(cfg, ins, k)
    ensures IsRequest(cfg, ins + more, k) && DumpOf(cfg, ins + more, k) == DumpOf(cfg, ins, k)
  {
    assert (ins + more)[..k] == ins[..k];
  }

  lemma EventsOfOne(a: Input, c: ContainerId)
    ensures EventsOf([], c) == [] && EventsOf([a], c) == if IsEventOf(a, c) then [a.event] else []
  {
    assert [a][..0] == [];
  }

  /** The end of the dump just asked for: an event at its very end, perhaps after one more event. */
  function Ending(d: Dump, taken: Option<Event>): seq<Input> {
    var end := Kernel(d.id, true, Event(d.EndNs(), 0, 0, 0));
    match taken case Some(e) => [Kernel(d.id, true, e), end] case None => [end]
  }

  lemma EndedAfter(cfg: Config, ins: seq<Input>, k: nat, d: Dump, taken: Option<Event>)
    requires IsRequest(cfg, ins, k) && |ins| == k + 1 && d == DumpOf(cfg, ins, k)
    requires taken.Some? ==> taken.value.tsNs < d.EndNs()
    ensures var run, m := ins + Ending(d, taken), k + 1 + Bit(taken.Some?);
            EndsAt(cfg, run, k, m, d) && |EventsOf(run[k + 1..m], d.id)| == Bit(taken.Some?)
  {
    hide Step, Run, DumpOf, IsRequest, DumpEnd, EventsOf;
    var more, run := Ending(d, taken), ins + Ending(d, taken);
    DumpOfPrefix(cfg, ins, more, k);
    EventsOfOne(more[0], d.id);
    assert run[k + 1..k + 1 + Bit(taken.Some?)] == if taken.Some? then [more[0]] else [];
  }

  lemma BrokenDumpMisfits(cfg: Config, ins: seq<Input>, k: nat, d: Dump)
    requires IsRequest(cfg, ins, k) && |ins| == k + 1 && d == DumpOf(cfg, ins, k)
    requires d.broken.Some? && !BreaksNothing(d)
    ensures exists more, m :: EndsAt(cfg, ins + more, k, m, d) && !NoticeFits(cfg, ins + more, d)
  {
    hide Step, Run, DumpOf, IsRequest, EndsAt, DumpEnd, LogOf, EventsOf, Ending;
    var taken := if d.EndNs() > 0 && |d.broken.value.bytes| == 80 then Some(Event(0, 0, 0, 0)) else None;
    var more, m := Ending(d, taken), k + 1 + Bit(taken.Some?);
    EndedAfter(cfg, ins, k, d, taken);
    DumpFileContents(cfg, ins + more, k, m, d);
    assert !NoticeFits(cfg, ins + more, d);
  }

  /**
   * Whether a dump's notice speaks of its file. However the run goes on, once the dump is over the two agree on path
   * and number of records if and only if its request came while no dump of the container was open (or broke one with
   * nothing to tell apart).
   */
  lemma NoticeFitsIff(cfg: Config, ins: seq<Input>, k: nat, d: Dump)
    requires IsRequest(cfg, ins, k) && |ins| == k + 1 && d == DumpOf(cfg, ins, k)
    ensures d.broken.None? <==> !Dumping(Run(cfg, ins[..k]), d.id)
    ensures (forall more, m :: EndsAt(cfg, ins + more, k, m, d) ==> NoticeFits(cfg, ins + more, d))
            <==> d.broken.None? || BreaksNothing(d)
  {
    OneNoticePerDump(cfg, ins[..k], d.id);
    hide Step, Run, LogOf, OpenUntil, LastRequest, Closes, Image, Begun, NoticeFits;
    if d.broken.None? || BreaksNothing(d) {
      forall more, m | EndsAt(cfg, ins + more, k, m, d) ensures NoticeFits(cfg, ins + more, d) {
        GoodDumpFits(cfg, ins + more, k, m, d);
      }
    } else {
      BrokenDumpMisfits(cfg, ins, k, d);
    }
  }

  lemma GoodDumpFits(cfg: Config, ins: seq<Input>, k: nat, m: nat, d: Dump)
    requires EndsAt(cfg, ins, k, m, d) && (d.broken.None? || BreaksNothing(d))
    ensures NoticeFits(cfg, ins, d)
  {
    hide Step, Run, LogOf, LastRequest, DumpOf, IsRequest, Image;
    DumpFileContents(cfg, ins, k, m, d);
    EarlyEventsComeBeforeTheEnd(ins, k, m, d);
    var es := EventsOf(ins[k + 1..m], d.id);
    assert es != [] ==> es[0] in es && 0 <= es[0].tsNs < d.EndNs();
  }

  // ---- is that every event of the interval? ----

  function Inside(es: seq<Event>, startNs: u64, endNs: u64): seq<Event> {
    if es == [] then []
    else
      var n := |es| - 1;
      Inside(es[..n], startNs, endNs) + if startNs <= es[n].tsNs < endNs then [es[n]] else []
  }

  lemma {:induction false} InsideConcat(a: seq<Event>, b: seq<Event>, startNs: u64, endNs: u64)
    ensures Inside(a + b, startNs, endNs) == Inside(a, startNs, endNs) + Inside(b, startNs, endNs)
  {
    if b == [] {
      assert a + b == a;
    } else {
      var n := |b| - 1;
      InsideConcat(a, b[..n], startNs, endNs);
      assert (a + b)[..|a + b| - 1] == a + b[..n];
    }
  }

  lemma {:induction false} InsideMembers(es: seq<Event>, startNs: u64, endNs: u64)
    ensures forall x :: x in Inside(es, startNs, endNs) <==> x in es && startNs <= x.tsNs < endNs
  {
    if es != [] {
      InsideMembers(es[..|es| - 1], startNs, endNs);
      assert es == es[..|es| - 1] + [es[|es| - 1]];
    }
  }

  predicate AllInside(es: seq<Event>, startNs: u64, endNs: u64) { forall x <- es :: startNs <= x.tsNs < endNs }

  lemma AllInsideShrinks(es: seq<Event>, startNs: u64, endNs: u64)
    requires AllInside(es, startNs, endNs) && es != []
    ensures AllInside(es[..|es| - 1], startNs, endNs) && startNs <= es[|es| - 1].tsNs < endNs
  {
  }

  lemma {:induction false} InsideWhole(es: seq<Event>, startNs: u64, endNs: u64)
    requires AllInside(es, startNs, endNs)
    ensures Inside(es, startNs, endNs) == es
  {
    hide AllInside;
    if es != [] {
      var n := |es| - 1;
      AllInsideShrinks(es, startNs, endNs);
      InsideWhole(es[..n], startNs, endNs);
      assert es == es[..n] + [es[n]];
    }
  }

  lemma {:induction false} InsideNone(es: seq<Event>, startNs: u64, endNs: u64)
    requires forall x <- es :: !(startNs <= x.tsNs < endNs)
    ensures Inside(es, startNs, endNs) == []
  {
    if es != [] {
      var n := |es| - 1;
      assert es[n] in es && (forall x <- es[..n] :: x in es);
      InsideNone(es[..n], startNs, endNs);
    }
  }

  lemma PartsAreInside(early: seq<Event>, late: seq<Event>, startNs: u64, endNs: u64)
    requires early == Inside(early, startNs, endNs) + Inside(late, startNs, endNs)
    ensures (forall x <- early :: startNs <= x.tsNs < endNs) && (forall x <- late :: !(startNs <= x.tsNs < endNs))
  {
    hide Inside;
    InsideMembers(early, startNs, endNs);
    InsideMembers(late, startNs, endNs);
    forall x | x in early ensures startNs <= x.tsNs < endNs {
      assert x in Inside(early, startNs, endNs) || x in Inside(late, startNs, endNs);
    }
    InsideWhole(early, startNs, endNs);
    assert |Inside(late, startNs, endNs)| == 0;
    forall x | x in late ensures !(startNs <= x.tsNs < endNs) { assert x !in Inside(late, startNs, endNs); }
  }

  lemma InsideOfPartsIff(early: seq<Event>, late: seq<Event>, startNs: u64, endNs: u64)
    ensures early == Inside(early + late, startNs, endNs) <==>
            (forall x <- early :: startNs <= x.tsNs < endNs) && (forall x <- late :: !(startNs <= x.tsNs < endNs))
  {
    hide Inside;
    InsideConcat(early, late, startNs, endNs);
    assert early + [] == early;
    if early == Inside(early + late, startNs, endNs) {
      PartsAreInside(early, late, startNs, endNs);
    }
    if (forall x <- early :: startNs <= x.tsNs < endNs) && (forall x <- late :: !(startNs <= x.tsNs < endNs)) {
      InsideWhole(early, startNs, endNs);
      InsideNone(late, startNs, endNs);
    }
  }

  lemma {:induction false} EventsOfAreInputs(ins: seq<Input>, c: ContainerId)
    ensures forall x <- EventsOf(ins, c) :: exists i :: 0 <= i < |ins| && IsEventOf(ins[i], c) && ins[i].event == x
  {
    if ins != [] {
      var n := |ins| - 1;
      EventsOfAreInputs(ins[..n], c);
      forall x | x in EventsOf(ins, c) ensures exists i :: 0 <= i < |ins| && IsEventOf(ins[i], c) && ins[i].event == x {
        if x in EventsOf(ins[..n], c) {
          var i :| 0 <= i < n && IsEventOf(ins[..n][i], c) && ins[..n][i].event == x;
          assert ins[i].event == x;
        } else {
          assert ins[n].event == x;
        }
      }
    }
  }

  lemma EarlyEventsComeBeforeTheEnd(ins: seq<Input>, k: nat, m: nat, d: Dump)
    requires k < m <= |ins| && OpenUntil(ins, k, m, d)
    ensures forall x <- EventsOf(ins[k + 1..m], d.id) :: x.tsNs < d.EndNs()
  {
    EventsOfAreInputs(ins[k + 1..m], d.id);
    forall x | x in EventsOf(ins[k + 1..m], d.id) ensures x.tsNs < d.EndNs() {
      var i :| 0 <= i < |ins[k + 1..m]| && IsEventOf(ins[k + 1..m][i], d.id) && ins[k + 1..m][i].event == x;
      assert !Closes(ins[k + 1 + i], d.EndNs());
    }
  }

  /**
   * When a dump is complete. What it has taken is every event of its container stamped in [start, end) if and only
   * if it has taken none stamped before the start and no event of the interval is handled after the first event of
   * any container stamped at or past the end.
   */
  lemma DumpCompleteIff(cfg: Config, ins: seq<Input>, k: nat, m: nat, d: Dump)
    requires EndsAt(cfg, ins, k, m, d)
    ensures EventsOf(ins[k + 1..m], d.id) == Inside(EventsOf(ins[k + 1..], d.id), d.startNs, d.EndNs())
            <==> (forall x <- EventsOf(ins[k + 1..m], d.id) :: d.startNs <= x.tsNs)
                 && (forall x <- EventsOf(ins[m..], d.id) :: !(d.startNs <= x.tsNs < d.EndNs()))
  {
    hide Step, IsRequest, DumpOf, Run;
    var early, late := EventsOf(ins[k + 1..m], d.id), EventsOf(ins[m..], d.id);
    assert ins[k + 1..] == ins[k + 1..m] + ins[m..];
    EventsOfConcat(ins[k + 1..m], ins[m..], d.id);
    EarlyEventsComeBeforeTheEnd(ins, k, m, d);
    InsideOfPartsIff(early, late, d.startNs, d.EndNs());
  }

  /** After `ins[k]`, events of all containers are handled in the order of their stamps. */
  predicate InStampOrder(ins: seq<Input>, k: nat) {
    forall i, j :: k < i < j < |ins| && ins[i].Kernel? && ins[j].Kernel? ==> ins[i].event.tsNs <= ins[j].event.tsNs
  }

  /** Where events are handled in the order of their stamps, across containers, only those from before the start are in question. */
  lemma OrderedEventsComplete(cfg: Config, ins: seq<Input>, k: nat, m: nat, d: Dump)
    requires EndsAt(cfg, ins, k, m, d) && InStampOrder(ins, k)
    ensures EventsOf(ins[k + 1..m], d.id) == Inside(EventsOf(ins[k + 1..], d.id), d.startNs, d.EndNs())
            <==> forall x <- EventsOf(ins[k + 1..m], d.id) :: d.startNs <= x.tsNs
  {
    hide Step, IsRequest, DumpOf, Run;
    EventsOfAreInputs(ins[m..], d.id);
    forall x | x in EventsOf(ins[m..], d.id) ensures d.EndNs() <= x.tsNs {
      var i :| 0 <= i < |ins[m..]| && IsEventOf(ins[m..][i], d.id) && ins[m..][i].event == x;
      assert ins[m + i].event == x;
    }
    DumpCompleteIff(cfg, ins, k, m, d);
  }

  /** Ordered stamps within each container are not: another container's later event closes the dump too early. */
  lemma OtherContainerClosesEarly(cfg: Config, c: ContainerId, other: ContainerId)
    requires c != other
    ensures var e, f := Event(20 * NS_PER_SEC, 0, 0, 0), Event(9 * NS_PER_SEC, 1, 0, 0);
            var ins, d := [Request(c, 10, "f", true, NS_PER_SEC), Kernel(other, true, e), Kernel(c, true, f)],
                          Dump(c, "f", NS_PER_SEC, 10, NEW_LOG, None);
            && EndsAt(cfg, ins, 0, 1, d)
            && EventsOf(ins[1..1], c) == []
            && Inside(EventsOf(ins[1..], c), d.startNs, d.EndNs()) == [f]
  {
    hide Step, EventsOf, Inside;
    var e, f := Event(20 * NS_PER_SEC, 0, 0, 0), Event(9 * NS_PER_SEC, 1, 0, 0);
    var ins := [Request(c, 10, "f", true, NS_PER_SEC), Kernel(other, true, e), Kernel(c, true, f)];
    assert ins[1..] == [ins[1], ins[2]];
    OneOfTwoEvents(ins[1], ins[2], c);
    InsideWhole([f], NS_PER_SEC, 11 * NS_PER_SEC);
    assert Run(cfg, ins[..0]) == INITIAL;
    assert ins[1..1] == [];
  }

  lemma OneOfTwoEvents(a: Input, b: Input, c: ContainerId)
    requires !IsEventOf(a, c) && IsEventOf(b, c)
    ensures EventsOf([], c) == [] && EventsOf([a, b], c) == [b.event]
  {
    assert [a, b] == [a] + [b];
    EventsOfConcat([a], [b], c);
    assert EventsOf([a], c) == [] && EventsOf([b], c) == [b.event] by { assert EventsOf([], c) == []; }
  }
}
