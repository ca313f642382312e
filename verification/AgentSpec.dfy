/** What each step of the agent does to its container buffers and to what it has sent. */
module AgentSpec {
  import opened Widths
  import opened Trace
  import opened DumpFormat

  const TRACE_VERSION: u32 := 1
  const CLEANUP_INTERVAL_NS := 60 * NS_PER_SEC
  const INACTIVE_NS := 300 * NS_PER_SEC

  datatype Config = Config(shortWindowSec: int, minEventsPerWindow: int, syscallVocabSize: int)

  /** An output stream. Opening an open stream again only sets its fail bit; from then on writes are dropped. */
  datatype Stream = Closed | Open(path: string, good: bool, bytes: seq<byte>)

  datatype Buffer = Buffer(
    windowStartTsNs: u64,
    lastEventTsNs: u64,
    currentShortWindow: seq<Event>,
    isLongDumpActive: bool,
    longDumpStartTsNs: u64,
    longDumpEndTsNs: u64,
    lastDumpTsNs: u64,
    longDumpStream: Stream,
    longDumpFilePath: string,
    longDumpRecordCount: nat,
    longDumpDurationSec: int)

  const NEW_BUFFER := Buffer(0, 0, [], false, 0, 0, 0, Closed, "", 0, 0)

  datatype WindowPost = WindowPost(windowStartTsNs: u64, events: seq<Event>)
  datatype DumpFile = DumpFile(path: string, bytes: seq<byte>)
  datatype Notice = Notice(dumpPath: string, startTsNs: u64, durationSec: int, recordCount: nat)

  /** Everything ever sent or closed for one container, in order. */
  datatype Log = Log(windows: seq<WindowPost>, files: seq<DumpFile>, notices: seq<Notice>)

  const NEW_LOG := Log([], [], [])

  /** One container's buffer with its log. */
  datatype Slot = Slot(buf: Buffer, log: Log)

  datatype State = State(buffers: map<ContainerId, Buffer>, logs: map<ContainerId, Log>, lastBufferCleanupNs: u64)

  const INITIAL := State(map[], map[], 0)

  function BufferOf(s: State, id: ContainerId): Buffer { if id in s.buffers then s.buffers[id] else NEW_BUFFER }
  function LogOf(s: State, id: ContainerId): Log { if id in s.logs then s.logs[id] else NEW_LOG }
  function SlotOf(s: State, id: ContainerId): Slot { Slot(BufferOf(s, id), LogOf(s, id)) }

  function Put(s: State, id: ContainerId, slot: Slot): State {
    s.(buffers := s.buffers[id := slot.buf], logs := s.logs[id := slot.log])
  }

  lemma PutTwice(s: State, id: ContainerId, first: Slot, second: Slot)
    ensures SlotOf(Put(s, id, first), id) == first
    ensures Put(Put(s, id, first), id, second) == Put(s, id, second)
  {
  }

  // ---- one container ----

  function Accumulate(b: Buffer, e: Event): Buffer {
    b.(windowStartTsNs := if b.currentShortWindow == [] then e.tsNs else b.windowStartTsNs,
       lastEventTsNs := e.tsNs,
       currentShortWindow := b.currentShortWindow + [e])
  }

  function Write(stream: Stream, data: seq<byte>): Stream {
    if stream.Open? && stream.good then stream.(bytes := stream.bytes + data) else stream
  }

  /** Close the stream if it is open, clear the flag, send the notice, reset the dump's name, count and duration. */
  function FinishDump(slot: Slot): Slot {
    var b := slot.buf;
    var files := match b.longDumpStream
                 case Open(path, _, bytes) => slot.log.files + [DumpFile(path, bytes)]
                 case Closed => slot.log.files;
    var notice := Notice(b.longDumpFilePath, b.longDumpStartTsNs, b.longDumpDurationSec, b.longDumpRecordCount);
    Slot(b.(longDumpStream := Closed, isLongDumpActive := false,
            longDumpFilePath := "", longDumpRecordCount := 0, longDumpDurationSec := 0),
         slot.log.(files := files, notices := slot.log.notices + [notice]))
  }

  function AppendLongDump(slot: Slot, e: Event): Slot {
    var b := slot.buf;
    if !b.isLongDumpActive || b.longDumpStream.Closed? then slot
    else if e.tsNs >= b.longDumpEndTsNs then FinishDump(slot)
    else
      var prev := if b.lastDumpTsNs == 0 then b.longDumpStartTsNs else b.lastDumpTsNs;
      slot.(buf := b.(longDumpStream := Write(b.longDumpStream, EncodeRecord(MakeTraceRecord(e, prev))),
                      lastDumpTsNs := e.tsNs,
                      longDumpRecordCount := b.longDumpRecordCount + 1))
  }

  predicate WindowDue(cfg: Config, b: Buffer, nowNs: u64) {
    && Sub64(nowNs, b.windowStartTsNs) >= SecToNs(cfg.shortWindowSec)
    && |b.currentShortWindow| >= cfg.minEventsPerWindow
  }

  function ProcessShortWindow(slot: Slot): Slot {
    var b := slot.buf;
    if b.currentShortWindow == [] then slot
    else Slot(b.(currentShortWindow := [], windowStartTsNs := 0),
              slot.log.(windows := slot.log.windows + [WindowPost(b.windowStartTsNs, b.currentShortWindow)]))
  }

  function Expire(slot: Slot, nowNs: u64): Slot {
    if slot.buf.isLongDumpActive && nowNs >= slot.buf.longDumpEndTsNs then FinishDump(slot) else slot
  }

  predicate Evictable(b: Buffer, nowNs: u64) {
    && Sub64(nowNs, b.lastEventTsNs) > INACTIVE_NS
    && !b.isLongDumpActive
    && b.currentShortWindow == []
  }

  /** The container's own part of handling an event. */
  function Take(cfg: Config, slot: Slot, e: Event): Slot {
    var appended := AppendLongDump(slot.(buf := Accumulate(slot.buf, e)), e);
    if WindowDue(cfg, appended.buf, e.tsNs) then ProcessShortWindow(appended) else appended
  }

  // ---- all containers ----

  function StopExpiredLongDumps(s: State, nowNs: u64): State {
    s.(buffers := map id | id in s.buffers :: Expire(SlotOf(s, id), nowNs).buf,
       logs := map id | id in s.logs.Keys + s.buffers.Keys ::
         if id in s.buffers then Expire(SlotOf(s, id), nowNs).log else LogOf(s, id))
  }

  lemma StoppedPointwise(s: State, after: State, nowNs: u64)
    requires s.buffers.Keys <= s.logs.Keys
    requires after.buffers.Keys == s.buffers.Keys && after.logs.Keys == s.logs.Keys
    requires after.lastBufferCleanupNs == s.lastBufferCleanupNs
    requires forall id | id in s.logs && id !in s.buffers :: after.logs[id] == s.logs[id]
    requires forall id | id in s.buffers :: SlotOf(after, id) == Expire(SlotOf(s, id), nowNs)
    ensures after == StopExpiredLongDumps(s, nowNs)
  {
    hide Expire;
    var expected := StopExpiredLongDumps(s, nowNs);
    assert expected.logs.Keys == s.logs.Keys;
    forall id | id in after.logs
      ensures after.logs[id] == expected.logs[id] && (id in after.buffers ==> after.buffers[id] == expected.buffers[id])
    {
      if id in s.buffers { assert SlotOf(after, id) == Slot(after.buffers[id], after.logs[id]); }
    }
  }

  function CleanupInactiveBuffers(s: State, nowNs: u64): State {
    if Sub64(nowNs, s.lastBufferCleanupNs) < CLEANUP_INTERVAL_NS then s
    else s.(buffers := map id | id in s.buffers && !Evictable(s.buffers[id], nowNs) :: s.buffers[id],
            lastBufferCleanupNs := nowNs)
  }

  /** One kernel event; `accepted` is false when the configured container filter rejects the id. */
  function HandleEvent(cfg: Config, s: State, id: ContainerId, accepted: bool, e: Event): State {
    if !accepted then s
    else CleanupInactiveBuffers(StopExpiredLongDumps(Put(s, id, Take(cfg, SlotOf(s, id), e)), e.tsNs), e.tsNs)
  }

  function DumpStart(b: Buffer, clockNs: u64): u64 { if b.lastEventTsNs != 0 then b.lastEventTsNs else clockNs }

  function DumpEnd(startNs: u64, durationSec: int): u64 { Add64(startNs, SecToNs(durationSec)) }

  function DumpHeader(cfg: Config, id: ContainerId, startNs: u64): Header {
    Header(TRACE_VERSION, ToU32(cfg.syscallVocabSize), id, startNs)
  }

  /** `fileOpens` says whether the operating system lets the new file be opened; `clockNs` is the monotonic clock. */
  function OpenDump(cfg: Config, slot: Slot, id: ContainerId, durationSec: int,
                    path: string, fileOpens: bool, clockNs: u64): Slot {
    var b := slot.buf;
    var stream := if b.longDumpStream.Open? then b.longDumpStream.(good := false)
                  else if fileOpens then Open(path, true, [])
                  else Closed;
    if stream.Closed? then slot
    else
      var startNs := DumpStart(b, clockNs);
      slot.(buf := b.(
        longDumpStream := Write(stream, EncodeHeader(DumpHeader(cfg, id, startNs))),
        longDumpStartTsNs := startNs,
        longDumpEndTsNs := DumpEnd(startNs, durationSec),
        lastDumpTsNs := 0,
        isLongDumpActive := true,
        longDumpFilePath := path,
        longDumpRecordCount := 0,
        longDumpDurationSec := durationSec))
  }

  function RequestLongDump(cfg: Config, s: State, id: ContainerId, durationSec: int,
                           path: string, fileOpens: bool, clockNs: u64): State {
    Put(s, id, OpenDump(cfg, SlotOf(s, id), id, durationSec, path, fileOpens, clockNs))
  }
}
