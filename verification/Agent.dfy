/** The agent itself: one object whose callbacks update the buffers in place. */
module AgentImpl {
  import opened Widths
  import opened Trace
  import opened DumpFormat
  import opened AgentSpec

  class Agent {
    const cfg: Config
    var buffers: map<ContainerId, Buffer>
    var lastBufferCleanupNs: u64
    ghost var logs: map<ContainerId, Log>

    ghost function State(): AgentSpec.State
      reads this
    {
      AgentSpec.State(buffers, logs, lastBufferCleanupNs)
    }

    constructor (cfg: Config)
      ensures this.cfg == cfg && State() == INITIAL
    {
      this.cfg := cfg;
      buffers, lastBufferCleanupNs, logs := map[], 0, map[];
    }

    /** `buffers_[id]`: a missing entry is created. */
    method Touch(id: ContainerId)
      modifies this
      ensures State() == Put(old(State()), id, SlotOf(old(State()), id))
    {
      logs := logs[id := LogOf(State(), id)];
      if id !in buffers {
        buffers := buffers[id := NEW_BUFFER];
      }
      assert buffers == old(buffers)[id := buffers[id]];
    }

    method NotifyDumpComplete(id: ContainerId)
      requires id in buffers && id in logs
      modifies this
      ensures lastBufferCleanupNs == old(lastBufferCleanupNs)
      ensures buffers == old(buffers)[id := old(buffers)[id].(longDumpFilePath := "", longDumpRecordCount := 0, longDumpDurationSec := 0)]
      ensures var b, l := old(buffers)[id], old(logs)[id];
              logs == old(logs)[id := l.(notices := l.notices +
                [Notice(b.longDumpFilePath, b.longDumpStartTsNs, b.longDumpDurationSec, b.longDumpRecordCount)])]
    {
      var b := buffers[id];
      ghost var notice := Notice(b.longDumpFilePath, b.longDumpStartTsNs, b.longDumpDurationSec, b.longDumpRecordCount);
      logs := logs[id := logs[id].(notices := logs[id].notices + [notice])];
      buffers := buffers[id := b.(longDumpFilePath := "", longDumpRecordCount := 0, longDumpDurationSec := 0)];
    }

    method CloseStream(id: ContainerId)
      requires id in buffers && id in logs && buffers[id].longDumpStream.Open?
      modifies this
      ensures lastBufferCleanupNs == old(lastBufferCleanupNs)
      ensures buffers == old(buffers)[id := old(buffers)[id].(longDumpStream := Closed)]
      ensures var stream, l := old(buffers)[id].longDumpStream, old(logs)[id];
              logs == old(logs)[id := l.(files := l.files + [DumpFile(stream.path, stream.bytes)])]
    {
      var stream := buffers[id].longDumpStream;
      logs := logs[id := logs[id].(files := logs[id].files + [DumpFile(stream.path, stream.bytes)])];
      buffers := buffers[id := buffers[id].(longDumpStream := Closed)];
    }

    /** The closing sequence shared by the two places that end a dump. */
    method FinishDump(id: ContainerId)
      requires id in buffers && id in logs
      modifies this
      ensures State() == Put(old(State()), id, AgentSpec.FinishDump(SlotOf(old(State()), id)))
    {
      ghost var s0, slot0 := State(), SlotOf(State(), id);
      if buffers[id].longDumpStream.Open? {
        CloseStream(id);
      }
      ghost var slot1 := SlotOf(State(), id);
      assert buffers == s0.buffers[id := slot1.buf] && logs == s0.logs[id := slot1.log];
      buffers := buffers[id := buffers[id].(isLongDumpActive := false)];
      NotifyDumpComplete(id);
      ghost var slot2 := SlotOf(State(), id);
      assert buffers == s0.buffers[id := slot2.buf] && logs == s0.logs[id := slot2.log];
      assert slot2 == AgentSpec.FinishDump(slot0);
    }

    method AppendLongDump(id: ContainerId, e: Event)
      requires id in buffers && id in logs
      modifies this
      ensures State() == Put(old(State()), id, AgentSpec.AppendLongDump(SlotOf(old(State()), id), e))
    {
      var b := buffers[id];
      if !b.isLongDumpActive || b.longDumpStream.Closed? {
        assert buffers == buffers[id := b] && logs == logs[id := logs[id]];
        return;
      }
      if e.tsNs >= b.longDumpEndTsNs {
        FinishDump(id);
        return;
      }
      var prev := if b.lastDumpTsNs == 0 then b.longDumpStartTsNs else b.lastDumpTsNs;
      var rec := MakeTraceRecord(e, prev);
      b := b.(longDumpStream := Write(b.longDumpStream, EncodeRecord(rec)));
      b := b.(lastDumpTsNs := e.tsNs);
      b := b.(longDumpRecordCount := b.longDumpRecordCount + 1);
      buffers := buffers[id := b];
      assert logs == logs[id := logs[id]];
    }

    method ProcessShortWindow(id: ContainerId)
      requires id in buffers && id in logs
      modifies this
      ensures State() == Put(old(State()), id, AgentSpec.ProcessShortWindow(SlotOf(old(State()), id)))
    {
      var b := buffers[id];
      if b.currentShortWindow == [] {
        assert buffers == buffers[id := b] && logs == logs[id := logs[id]];
        return;
      }
      logs := logs[id := logs[id].(windows := logs[id].windows + [WindowPost(b.windowStartTsNs, b.currentShortWindow)])];
      b := b.(currentShortWindow := []);
      b := b.(windowStartTsNs := 0);
      buffers := buffers[id := b];
    }

    method ExpireOne(id: ContainerId, nowNs: u64)
      requires id in buffers && id in logs
      modifies this
      ensures State() == Put(old(State()), id, Expire(SlotOf(old(State()), id), nowNs))
    {
      assert State() == Put(State(), id, SlotOf(State(), id));
      if buffers[id].isLongDumpActive && nowNs >= buffers[id].longDumpEndTsNs {
        FinishDump(id);
      }
    }

    /** The sweep visits the buffers in whatever order the hash table yields them. */
    method StopExpiredLongDumps(nowNs: u64)
      requires buffers.Keys <= logs.Keys
      modifies this
      ensures State() == AgentSpec.StopExpiredLongDumps(old(State()), nowNs)
      ensures buffers.Keys == old(buffers).Keys && logs.Keys == old(logs).Keys
    {
      ghost var before := State();
      var todo := buffers.Keys;
      while todo != {}
        invariant todo <= buffers.Keys == old(buffers).Keys && logs.Keys == old(logs).Keys
        invariant lastBufferCleanupNs == old(lastBufferCleanupNs)
        invariant forall id | id in logs && id !in buffers :: logs[id] == old(logs)[id]
        invariant forall id | id in todo :: SlotOf(State(), id) == SlotOf(before, id)
        invariant forall id | id in buffers.Keys - todo :: SlotOf(State(), id) == Expire(SlotOf(before, id), nowNs)
        decreases |todo|
      {
        var id :| id in todo;
        todo := todo - {id};
        ExpireOne(id, nowNs);
      }
      StoppedPointwise(before, State(), nowNs);
    }

    method CleanupInactiveBuffers(nowNs: u64)
      modifies this
      ensures State() == AgentSpec.CleanupInactiveBuffers(old(State()), nowNs)
      ensures logs == old(logs) && buffers.Keys <= old(buffers).Keys
    {
      if Sub64(nowNs, lastBufferCleanupNs) < CLEANUP_INTERVAL_NS {
        return;
      }
      lastBufferCleanupNs := nowNs;
      var todo := buffers.Keys;
      while todo != {}
        invariant todo <= buffers.Keys <= old(buffers).Keys
        invariant forall id | id in buffers :: buffers[id] == old(buffers)[id]
        invariant forall id | id in old(buffers) :: id in buffers <==> id in todo || !Evictable(old(buffers)[id], nowNs)
        invariant logs == old(logs) && lastBufferCleanupNs == nowNs
        decreases |todo|
      {
        var id :| id in todo;
        todo := todo - {id};
        var isInactive := Sub64(nowNs, buffers[id].lastEventTsNs) > INACTIVE_NS;
        var hasNoDump := !buffers[id].isLongDumpActive;
        var hasNoWindow := buffers[id].currentShortWindow == [];
        if isInactive && hasNoDump && hasNoWindow {
          buffers := buffers - {id};
        }
      }
    }

    method Accumulate(id: ContainerId, e: Event)
      modifies this
      ensures State() == Put(old(State()), id, Slot(AgentSpec.Accumulate(BufferOf(old(State()), id), e), LogOf(old(State()), id)))
    {
      Touch(id);
      var b := buffers[id];
      if b.currentShortWindow == [] {
        b := b.(windowStartTsNs := e.tsNs);
      }
      b := b.(lastEventTsNs := e.tsNs);
      b := b.(currentShortWindow := b.currentShortWindow + [e]);
      buffers := buffers[id := b];
    }

    /** The callback's first half: the event's own container. */
    method TakeEvent(id: ContainerId, e: Event)
      modifies this
      ensures State() == Put(old(State()), id, Take(cfg, SlotOf(old(State()), id), e))
    {
      ghost var s0 := State();
      Accumulate(id, e);
      ghost var accumulated := SlotOf(s0, id).(buf := AgentSpec.Accumulate(BufferOf(s0, id), e));
      PutTwice(s0, id, accumulated, AgentSpec.AppendLongDump(accumulated, e));
      AppendLongDump(id, e);
      ghost var appended := AgentSpec.AppendLongDump(accumulated, e);
      PutTwice(s0, id, appended, AgentSpec.ProcessShortWindow(appended));
      assert State() == Put(s0, id, appended);
      if Sub64(e.tsNs, buffers[id].windowStartTsNs) >= SecToNs(cfg.shortWindowSec) &&
         |buffers[id].currentShortWindow| >= cfg.minEventsPerWindow {
        ProcessShortWindow(id);
      }
    }

    /** The ring-buffer callback, given the id its cgroup maps to and whether the container filter lets it pass. */
    method HandleEvent(id: ContainerId, accepted: bool, e: Event)
      requires buffers.Keys <= logs.Keys
      modifies this
      ensures State() == AgentSpec.HandleEvent(cfg, old(State()), id, accepted, e)
      ensures buffers.Keys <= logs.Keys
    {
      if !accepted {
        return;
      }
      TakeEvent(id, e);
      StopExpiredLongDumps(e.tsNs);
      CleanupInactiveBuffers(e.tsNs);
    }

    method RequestLongDump(id: ContainerId, durationSec: int, path: string, fileOpens: bool, clockNs: u64)
      requires buffers.Keys <= logs.Keys
      modifies this
      ensures State() == AgentSpec.RequestLongDump(cfg, old(State()), id, durationSec, path, fileOpens, clockNs)
      ensures buffers.Keys <= logs.Keys
    {
      Touch(id);
      var b := buffers[id];
      if b.longDumpStream.Open? {
        b := b.(longDumpStream := b.longDumpStream.(good := false));
      } else if fileOpens {
        b := b.(longDumpStream := Open(path, true, []));
      }
      if b.longDumpStream.Closed? {
        return;
      }
      b := b.(longDumpStartTsNs := if b.lastEventTsNs != 0 then b.lastEventTsNs else clockNs);
      b := b.(longDumpEndTsNs := Add64(b.longDumpStartTsNs, SecToNs(durationSec)));
      b := b.(lastDumpTsNs := 0);
      b := b.(isLongDumpActive := true);
      b := b.(longDumpFilePath := path);
      b := b.(longDumpRecordCount := 0);
      b := b.(longDumpDurationSec := durationSec);
      var header := DumpHeader(cfg, id, b.longDumpStartTsNs);
      b := b.(longDumpStream := Write(b.longDumpStream, EncodeHeader(header)));
      buffers := buffers[id := b];
    }
  }
}
