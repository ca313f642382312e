/** Kernel events, and the trace records and window payloads the agent makes of them. */
module Trace {
  import opened Widths

  /** A container id, as the bytes of its string. */
  type ContainerId = seq<byte>

  /** What the agent keeps of one kernel event once its container is known. */
  datatype Event = Event(tsNs: u64, syscallId: u16, argClass: byte, argBucket: byte)

  /** A record as its readers hold it: in a JSON payload or in Python the four fields are plain integers. */
  datatype Record = Record(deltaUs: int, syscallId: int, argClass: int, argBucket: int)

  predicate Packs(r: Record) {
    && 0 <= r.deltaUs < 0x1_0000_0000
    && 0 <= r.syscallId < 0x1_0000
    && 0 <= r.argClass < 0x100
    && 0 <= r.argBucket < 0x100
  }

  /** A record whose fields fit the packed struct of a dump file. */
  type PackedRecord = r: Record | Packs(r) witness Record(0, 0, 0, 0)

  /** What a record says about its system call, apart from when it happened. */
  datatype Kind = Kind(syscallId: int, argClass: int, argBucket: int)

  function EventKind(e: Event): Kind { Kind(e.syscallId, e.argClass, e.argBucket) }
  function RecordKind(r: Record): Kind { Kind(r.syscallId, r.argClass, r.argBucket) }

  function EventKinds(es: seq<Event>): seq<Kind> { seq(|es|, i requires 0 <= i < |es| => EventKind(es[i])) }
  function RecordKinds(rs: seq<Record>): seq<Kind> { seq(|rs|, i requires 0 <= i < |rs| => RecordKind(rs[i])) }

  function NsToUs(ns: u64): u64 { ns / 1000 }

  /** The dump record of an event: microseconds since the previous record, cut to 32 bits. */
  function MakeTraceRecord(e: Event, prevNs: u64): PackedRecord {
    Record(ToU32(NsToUs(Sub64(e.tsNs, prevNs))), e.syscallId, e.argClass, e.argBucket)
  }

  /** The stamp of the last event, or zero, which the agent also takes to mean that there was none. */
  function LastTs(es: seq<Event>): u64 { if es == [] then 0 else es[|es| - 1].tsNs }

  /** What the delta of the next record counts from. */
  function Previous(startNs: u64, es: seq<Event>): u64 { if LastTs(es) == 0 then startNs else LastTs(es) }

  /** The records of a whole dump: each delta is taken from the event before, the first from the dump's start. */
  function Deltas(startNs: u64, es: seq<Event>): (rs: seq<PackedRecord>)
    ensures |rs| == |es|
  {
    if es == [] then []
    else
      var n := |es| - 1;
      Deltas(startNs, es[..n]) + [MakeTraceRecord(es[n], Previous(startNs, es[..n]))]
  }

  lemma DeltasExtend(startNs: u64, es: seq<Event>, e: Event)
    ensures Deltas(startNs, es + [e]) == Deltas(startNs, es) + [MakeTraceRecord(e, Previous(startNs, es))]
  {
    assert (es + [e])[..|es|] == es;
  }

  lemma {:induction false} DeltasKeepKinds(startNs: u64, es: seq<Event>)
    ensures RecordKinds(Deltas(startNs, es)) == EventKinds(es)
  {
    if es != [] {
      DeltasKeepKinds(startNs, es[..|es| - 1]);
      var n := |es| - 1;
      var rs, init := Deltas(startNs, es), Deltas(startNs, es[..n]);
      assert RecordKinds(rs) == RecordKinds(init) + [EventKind(es[n])];
      assert EventKinds(es) == EventKinds(es[..n]) + [EventKind(es[n])];
    }
  }

  /** The records of a short-window payload: each delta is taken from the window's start and is not cut. */
  function WindowRecords(startNs: u64, es: seq<Event>): seq<Record> {
    seq(|es|, i requires 0 <= i < |es| =>
      Record(NsToUs(Sub64(es[i].tsNs, startNs)), es[i].syscallId, es[i].argClass, es[i].argBucket))
  }

  method BuildWindowRecords(startNs: u64, es: seq<Event>) returns (rs: seq<Record>)
    ensures rs == WindowRecords(startNs, es)
  {
    rs := [];
    for i := 0 to |es|
      invariant rs == WindowRecords(startNs, es)[..i]
    {
      var deltaUs := NsToUs(Sub64(es[i].tsNs, startNs));
      rs := rs + [Record(deltaUs, es[i].syscallId, es[i].argClass, es[i].argBucket)];
    }
  }

  /**
   * The reader of a window recovers a timestamp to within a microsecond, however many events precede it, if and only
   * if it is not before the window's start.
   */
  lemma WindowTimesDoNotDrift(startNs: u64, es: seq<Event>, i: nat)
    requires i < |es|
    ensures var rs := WindowRecords(startNs, es);
            && |rs| == |es| && RecordKinds(rs) == EventKinds(es)
            && (0 <= es[i].tsNs - (startNs + 1000 * rs[i].deltaUs) < 1000 <==> startNs <= es[i].tsNs)
  {
    assert RecordKinds(WindowRecords(startNs, es)) == EventKinds(es);
  }
}
