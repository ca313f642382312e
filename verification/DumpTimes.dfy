/** When a dump starts and ends, from the inputs of the run alone. */
module DumpTimes {
  import opened Common
  import opened Widths
  import opened Trace
  import opened DumpFormat
  import opened AgentSpec
  import opened AgentRuns
  import opened DumpRuns
  import DumpPipeline

  /** What remains of `a - b` on 64-bit clocks. */
  function Since(a: int, b: int): int { (a - b) % 0x1_0000_0000_0000_0000 }

  predicate IsEvent(input: Input) { input.Kernel? && input.accepted }

  /** The stamp of the last event at which the agent looked for idle buffers: at most once a minute. */
  function LastSweep(ins: seq<Input>): u64
    decreases |ins|, 0
  {
    if ins == [] then 0
    else
      var n := |ins| - 1;
      if Sweeps(ins, n) then ins[n].event.tsNs else LastSweep(ins[..n])
  }

  predicate Sweeps(ins: seq<Input>, n: nat)
    requires n < |ins|
    decreases n, 1
  {
    IsEvent(ins[n]) && Since(ins[n].event.tsNs, LastSweep(ins[..n])) >= 60_000_000_000
  }

  /**
   * At `ins[n]` the agent looks for idle buffers more than five minutes after the container's last event, all of
   * whose events have been posted, and no dump of it is left open.
   */
  predicate FindsIdle(cfg: Config, ins: seq<Input>, n: nat, c: ContainerId)
    requires n < |ins|
  {
    var sofar := ins[..n + 1];
    && Sweeps(ins, n)
    && Since(ins[n].event.tsNs, LastTs(EventsOf(sofar, c))) > 300_000_000_000
    && Concat(Bodies(LogOf(Run(cfg, sofar), c).windows)) == EventsOf(sofar, c)
    && !Dumping(Run(cfg, sofar), c)
  }

  /** The container has been found idle since its last event. */
  predicate Forgotten(cfg: Config, ins: seq<Input>, c: ContainerId) {
    exists n :: 0 <= n < |ins| && FindsIdle(cfg, ins, n, c) && EventsOf(ins[n..], c) == []
  }

  lemma SweepsOfPrefix(ins: seq<Input>, m: nat, n: nat)
    requires n < m <= |ins|
    ensures Sweeps(ins[..m], n) == Sweeps(ins, n)
  {
    assert ins[..m][..n] == ins[..n];
  }

  lemma {:induction false} SweepClock(cfg: Config, ins: seq<Input>)
    ensures Run(cfg, ins).lastBufferCleanupNs == LastSweep(ins)
  {
    hide Take, Expire, OpenDump;
    if ins != [] { SweepClock(cfg, ins[..|ins| - 1]); }
  }

  lemma FindsIdleOfPrefix(cfg: Config, ins: seq<Input>, m: nat, n: nat, c: ContainerId)
    requires n < m <= |ins|
    ensures FindsIdle(cfg, ins[..m], n, c) == FindsIdle(cfg, ins, n, c)
  {
    hide Run, Sweeps;
    SweepsOfPrefix(ins, m, n);
    assert ins[..m][..n + 1] == ins[..n + 1];
  }

  lemma ForgottenStep(cfg: Config, ins: seq<Input>, c: ContainerId)
    requires ins != []
    ensures var n := |ins| - 1;
            Forgotten(cfg, ins, c) <==> !IsEventOf(ins[n], c) && (Forgotten(cfg, ins[..n], c) || FindsIdle(cfg, ins, n, c))
  {
    hide Run, FindsIdle;
    var n := |ins| - 1;
    var init := ins[..n];
    EventsOfOne(ins[n], c);
    forall i: nat | i < n
      ensures EventsOf(ins[i..], c) == EventsOf(init[i..], c) + EventsOf([ins[n]], c)
      ensures FindsIdle(cfg, init, i, c) == FindsIdle(cfg, ins, i, c)
    {
      assert ins[i..] == init[i..] + [ins[n]];
      EventsOfConcat(init[i..], [ins[n]], c);
      FindsIdleOfPrefix(cfg, ins, n, i, c);
    }
    assert ins[n..] == [ins[n]];
  }

  /** What becomes of a container's buffer in one step. */
  lemma BufferAfter(cfg: Config, s: State, input: Input, c: ContainerId)
    ensures var b := StepSlot(cfg, SlotOf(s, c), input, c, c in s.buffers).buf;
            var swept := IsEvent(input) && Since(input.event.tsNs, s.lastBufferCleanupNs) >= 60_000_000_000
                         && Since(input.event.tsNs, b.lastEventTsNs) > 300_000_000_000
                         && !b.isLongDumpActive && b.currentShortWindow == [] && (c in s.buffers || input.id == c);
            && BufferOf(Step(cfg, s, input), c) == (if swept then NEW_BUFFER else b)
            && (c in Step(cfg, s, input).buffers <==> (c in s.buffers || (input.id == c && (input.Request? || input.accepted))) && !swept)
  {
    hide Take, Expire, OpenDump;
    if IsEvent(input) {
      var taken := Put(s, input.id, Take(cfg, SlotOf(s, input.id), input.event));
      var stopped := StopExpiredLongDumps(taken, input.event.tsNs);
      assert SlotOf(stopped, c) == StepSlot(cfg, SlotOf(s, c), input, c, c in s.buffers);
    }
  }

  lemma LastEventAfter(cfg: Config, slot: Slot, input: Input, c: ContainerId, known: bool)
    ensures StepSlot(cfg, slot, input, c, known).buf.lastEventTsNs ==
            if IsEventOf(input, c) then input.event.tsNs else slot.buf.lastEventTsNs
  {
  }

  lemma AllPostedIff(cfg: Config, ins: seq<Input>, c: ContainerId)
    ensures Concat(Bodies(LogOf(Run(cfg, ins), c).windows)) == EventsOf(ins, c) <==> BufferOf(Run(cfg, ins), c).currentShortWindow == []
  {
    hide Run, Bodies;
    ShortWindowConservation(cfg, ins, c);
    var posted := Concat(Bodies(LogOf(Run(cfg, ins), c).windows));
    assert posted + BufferOf(Run(cfg, ins), c).currentShortWindow == EventsOf(ins, c);
    assert |posted| == |EventsOf(ins, c)| ==> posted == EventsOf(ins, c);
    assert posted + [] == posted;
  }

  /** The buffer knows the container's last event exactly until the container is found idle. */
  lemma {:induction false} LastEventKnown(cfg: Config, ins: seq<Input>, c: ContainerId)
    ensures var b := BufferOf(Run(cfg, ins), c);
            && b.lastEventTsNs == (if Forgotten(cfg, ins, c) then 0 else LastTs(EventsOf(ins, c)))
            && (!Forgotten(cfg, ins, c) && EventsOf(ins, c) != [] ==> c in Run(cfg, ins).buffers)
  {
    hide Step, StepSlot, Forgotten, Concat, Bodies;
    if ins == [] {
      NeverForgotten(cfg, ins, c);
    } else {
      var n := |ins| - 1;
      var s, input := Run(cfg, ins[..n]), ins[n];
      LastEventKnown(cfg, ins[..n], c);
      ForgottenStep(cfg, ins, c);
      SweepClock(cfg, ins[..n]);
      StepAtContainer(cfg, s, input, c);
      BufferAfter(cfg, s, input, c);
      LastEventAfter(cfg, SlotOf(s, c), input, c, c in s.buffers);
      AllPostedIff(cfg, ins, c);
      assert ins[..n + 1] == ins;
    }
  }

  lemma NeverForgotten(cfg: Config, ins: seq<Input>, c: ContainerId)
    requires ins == []
    ensures !Forgotten(cfg, ins, c) && EventsOf(ins, c) == [] && Run(cfg, ins) == INITIAL
  {
  }

  /**
   * When a dump starts and ends. In every run, a served request starts its dump at the stamp of the container's last
   * event, unless there was none, or its stamp is zero, or the container has been found idle since: then at the
   * clock. It ends the requested seconds later, on 64 bits.
   */
  lemma DumpStartsAt(cfg: Config, ins: seq<Input>, k: nat)
    requires IsRequest(cfg, ins, k)
    ensures var d, last := DumpOf(cfg, ins, k), LastTs(EventsOf(ins[..k], ins[k].id));
            && d.startNs == (if last == 0 || Forgotten(cfg, ins[..k], ins[k].id) then ins[k].clockNs else last)
            && d.EndNs() == (d.startNs + ins[k].durationSec * 1_000_000_000) % 0x1_0000_0000_0000_0000
  {
    hide Run, Forgotten;
    LastEventKnown(cfg, ins[..k], ins[k].id);
    EndsAfter(DumpOf(cfg, ins, k).startNs, ins[k].durationSec);
  }

  lemma EndsAfter(startNs: u64, durationSec: int)
    ensures DumpEnd(startNs, durationSec) == (startNs + durationSec * 1_000_000_000) % 0x1_0000_0000_0000_0000
  {
    var q, r := durationSec / 0x1_0000_0000_0000_0000, durationSec % 0x1_0000_0000_0000_0000;
    var p, t := r * 1_000_000_000 / 0x1_0000_0000_0000_0000, r * 1_000_000_000 % 0x1_0000_0000_0000_0000;
    assert durationSec == 0x1_0000_0000_0000_0000 * q + r;
    assert r * 1_000_000_000 == 0x1_0000_0000_0000_0000 * p + t;
    assert SecToNs(durationSec) == t;
    Wraps(startNs + t, 1_000_000_000 * q + p);
  }

  lemma Wraps(a: int, k: int)
    ensures (a + 0x1_0000_0000_0000_0000 * k) % 0x1_0000_0000_0000_0000 == a % 0x1_0000_0000_0000_0000
  {
  }

  /** No event of any container since the last of `c` is stamped more than five minutes from it. */
  predicate NoneLongAfter(ins: seq<Input>, c: ContainerId) {
    forall i :: 0 <= i < |ins| && IsEvent(ins[i]) && EventsOf(ins[i..], c) == [] ==>
      Since(ins[i].event.tsNs, LastTs(EventsOf(ins, c))) <= 300_000_000_000
  }

  /** In particular at the last event itself while nothing has been stamped more than five minutes from it. */
  lemma DumpStartsAtLastEvent(cfg: Config, ins: seq<Input>, k: nat)
    requires IsRequest(cfg, ins, k) && NoneLongAfter(ins[..k], ins[k].id)
    ensures var last := LastTs(EventsOf(ins[..k], ins[k].id));
            last != 0 ==> DumpOf(cfg, ins, k).startNs == last
  {
    hide Run, DumpOf, Dumping;
    var before, c := ins[..k], ins[k].id;
    DumpStartsAt(cfg, ins, k);
    forall n: nat | n < k && EventsOf(before[n..], c) == [] ensures !FindsIdle(cfg, before, n, c) {
      assert before == before[..n] + before[n..] && before[n..] == [before[n]] + before[n + 1..];
      EventsOfConcat(before[..n], before[n..], c);
      EventsOfConcat(before[..n], [before[n]], c);
      EventsOfConcat([before[n]], before[n + 1..], c);
      assert before[..n + 1] == before[..n] + [before[n]];
    }
  }

  /** The notice and the header say so. */
  lemma NoticeAndHeaderStart(cfg: Config, ins: seq<Input>, k: nat, m: nat, d: Dump)
    requires EndsAt(cfg, ins, k, m, d)
    ensures var i, log, last := |d.before.files|, LogOf(Run(cfg, ins), d.id), LastTs(EventsOf(ins[..k], ins[k].id));
            var startNs := if last == 0 || Forgotten(cfg, ins[..k], ins[k].id) then ins[k].clockNs else last;
            && i < |log.files| == |log.notices|
            && log.notices[i].startTsNs == startNs && log.notices[i].durationSec == ins[k].durationSec
            && (d.broken.None? ==> Parse(log.files[i].bytes).Parsed? && Parse(log.files[i].bytes).header.startNs == startNs)
  {
    hide Run, Step, Forgotten, Parse, LastRequest, OpenUntil, Deltas, Image;
    DumpFileContents(cfg, ins, k, m, d);
    DumpStartsAt(cfg, ins, k);
    if d.broken.None? { DumpPipeline.FileParses(cfg, ins, d.id, LogOf(Run(cfg, ins), d.id).files[|d.before.files|], k, m); }
  }
}
