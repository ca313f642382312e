/** Whole runs of the agent, and what they keep of every container's events: the short windows. */
module AgentRuns {
  import opened Common
  import opened Widths
  import opened Trace
  import opened AgentSpec

  /** One callback or one dump request, each atomic. */
  datatype Input =
    | Kernel(id: ContainerId, accepted: bool, event: Event)
    | Request(id: ContainerId, durationSec: int, path: string, fileOpens: bool, clockNs: u64)

  function Step(cfg: Config, s: State, input: Input): State {
    match input
    case Kernel(id, accepted, e) => HandleEvent(cfg, s, id, accepted, e)
    case Request(id, durationSec, path, fileOpens, clockNs) => RequestLongDump(cfg, s, id, durationSec, path, fileOpens, clockNs)
  }

  function Run(cfg: Config, ins: seq<Input>): State {
    if ins == [] then INITIAL else Step(cfg, Run(cfg, ins[..|ins| - 1]), ins[|ins| - 1])
  }

  predicate IsEventOf(input: Input, c: ContainerId) { input.Kernel? && input.accepted && input.id == c }

  /** The accepted events of container `c`, in order. */
  function EventsOf(ins: seq<Input>, c: ContainerId): seq<Event> {
    if ins == [] then []
    else
      var n := |ins| - 1;
      EventsOf(ins[..n], c) + if IsEventOf(ins[n], c) then [ins[n].event] else []
  }

  lemma {:induction false} EventsOfConcat(a: seq<Input>, b: seq<Input>, c: ContainerId)
    ensures EventsOf(a + b, c) == EventsOf(a, c) + EventsOf(b, c)
  {
    if b == [] {
      assert a + b == a;
    } else {
      var n := |b| - 1;
      EventsOfConcat(a, b[..n], c);
      assert (a + b)[..|a + b| - 1] == a + b[..n];
    }
  }

  // ---- what one step does to one container ----

  /** The step as container `c` sees it before the sweep for idle buffers. */
  function StepSlot(cfg: Config, slot: Slot, input: Input, c: ContainerId, known: bool): Slot {
    match input
    case Kernel(id, accepted, e) =>
      if !accepted then slot
      else if id == c then Expire(Take(cfg, slot, e), e.tsNs)
      else if known then Expire(slot, e.tsNs)
      else slot
    case Request(id, durationSec, path, fileOpens, clockNs) =>
      if id == c then OpenDump(cfg, slot, c, durationSec, path, fileOpens, clockNs) else slot
  }

  /** A buffer that can be swept holds no event and no dump. */
  predicate Idle(b: Buffer) { !b.isLongDumpActive && b.currentShortWindow == [] }

  lemma StepAtContainer(cfg: Config, s: State, input: Input, c: ContainerId)
    ensures var after := StepSlot(cfg, SlotOf(s, c), input, c, c in s.buffers);
            && LogOf(Step(cfg, s, input), c) == after.log
            && (|| BufferOf(Step(cfg, s, input), c) == after.buf
                || (Idle(after.buf) && c !in Step(cfg, s, input).buffers))
  {
    if input.Kernel? && input.accepted {
      var taken := Put(s, input.id, Take(cfg, SlotOf(s, input.id), input.event));
      var stopped := StopExpiredLongDumps(taken, input.event.tsNs);
      assert SlotOf(stopped, c) == StepSlot(cfg, SlotOf(s, c), input, c, c in s.buffers);
    }
  }

  // ---- short windows ----

  /** The windows handed to the HTTP client so far, in order. */
  function Bodies(posts: seq<WindowPost>): seq<seq<Event>> {
    seq(|posts|, i requires 0 <= i < |posts| => posts[i].events)
  }

  /** Long enough in time and in events to be posted. */
  predicate Complete(cfg: Config, es: seq<Event>) {
    && es != []
    && Sub64(es[|es| - 1].tsNs, es[0].tsNs) >= SecToNs(cfg.shortWindowSec)
    && |es| >= cfg.minEventsPerWindow
  }

  predicate NoPrefixComplete(cfg: Config, es: seq<Event>) {
    forall k :: 0 < k <= |es| ==> !Complete(cfg, es[..k])
  }

  /** Complete, and no shorter prefix is. */
  predicate EarliestComplete(cfg: Config, es: seq<Event>) {
    Complete(cfg, es) && NoPrefixComplete(cfg, es[..|es| - 1])
  }

  /** `pieces`, each cut off as early as possible, and then `rest`, not yet due, make up `accepted`. */
  predicate IsCut(cfg: Config, pieces: seq<seq<Event>>, rest: seq<Event>, accepted: seq<Event>) {
    && Concat(pieces) + rest == accepted
    && (forall i :: 0 <= i < |pieces| ==> EarliestComplete(cfg, pieces[i]))
    && NoPrefixComplete(cfg, rest)
  }

  predicate WindowsKept(cfg: Config, slot: Slot, accepted: seq<Event>) {
    && IsCut(cfg, Bodies(slot.log.windows), slot.buf.currentShortWindow, accepted)
    && (forall i :: 0 <= i < |slot.log.windows| ==>
         slot.log.windows[i].events != [] && slot.log.windows[i].windowStartTsNs == slot.log.windows[i].events[0].tsNs)
    && (slot.buf.currentShortWindow != [] ==> slot.buf.windowStartTsNs == slot.buf.currentShortWindow[0].tsNs)
  }

  lemma NoPrefixCompleteExtends(cfg: Config, es: seq<Event>, e: Event)
    requires NoPrefixComplete(cfg, es) && !Complete(cfg, es + [e])
    ensures NoPrefixComplete(cfg, es + [e])
  {
    forall k | 0 < k <= |es + [e]| ensures !Complete(cfg, (es + [e])[..k]) {
      assert (es + [e])[..k] == if k <= |es| then es[..k] else es + [e];
    }
  }

  lemma CutGrows(cfg: Config, pieces: seq<seq<Event>>, rest: seq<Event>, e: Event, accepted: seq<Event>)
    requires IsCut(cfg, pieces, rest, accepted)
    ensures if Complete(cfg, rest + [e]) then IsCut(cfg, pieces + [rest + [e]], [], accepted + [e])
            else IsCut(cfg, pieces, rest + [e], accepted + [e])
  {
    var w := rest + [e];
    assert w[..|w| - 1] == rest;
    if Complete(cfg, w) {
      var all := pieces + [w];
      assert all[..|all| - 1] == pieces;
      assert Concat(all) + [] == accepted + [e];
    } else {
      NoPrefixCompleteExtends(cfg, rest, e);
      assert Concat(pieces) + w == accepted + [e];
    }
  }

  /** Taking an event either extends the open window or, exactly when that makes it due, posts it. */
  lemma TakeEffect(cfg: Config, slot: Slot, e: Event)
    requires slot.buf.currentShortWindow != [] ==> slot.buf.windowStartTsNs == slot.buf.currentShortWindow[0].tsNs
    ensures var w, after := slot.buf.currentShortWindow + [e], Take(cfg, slot, e);
            if Complete(cfg, w) then
              after.log.windows == slot.log.windows + [WindowPost(w[0].tsNs, w)] && after.buf.currentShortWindow == []
            else
              after.log.windows == slot.log.windows && after.buf.currentShortWindow == w && after.buf.windowStartTsNs == w[0].tsNs
  {
    var w := slot.buf.currentShortWindow + [e];
    var appended := AppendLongDump(slot.(buf := Accumulate(slot.buf, e)), e);
    assert appended.buf.currentShortWindow == w && appended.log.windows == slot.log.windows;
    assert appended.buf.windowStartTsNs == w[0].tsNs;
    assert WindowDue(cfg, appended.buf, e.tsNs) <==> Complete(cfg, w);
  }

  lemma TakeKeepsWindows(cfg: Config, slot: Slot, e: Event, accepted: seq<Event>)
    requires WindowsKept(cfg, slot, accepted)
    ensures WindowsKept(cfg, Take(cfg, slot, e), accepted + [e])
  {
    var w, posts := slot.buf.currentShortWindow + [e], slot.log.windows;
    CutGrows(cfg, Bodies(posts), slot.buf.currentShortWindow, e, accepted);
    TakeEffect(cfg, slot, e);
    assert Bodies(posts + [WindowPost(w[0].tsNs, w)]) == Bodies(posts) + [w];
  }

  lemma StepKeepsWindows(cfg: Config, slot: Slot, input: Input, c: ContainerId, known: bool, accepted: seq<Event>)
    requires WindowsKept(cfg, slot, accepted)
    ensures WindowsKept(cfg, StepSlot(cfg, slot, input, c, known), if IsEventOf(input, c) then accepted + [input.event] else accepted)
  {
    if IsEventOf(input, c) {
      TakeKeepsWindows(cfg, slot, input.event, accepted);
    }
  }

  lemma IdleForgetsNoWindow(cfg: Config, slot: Slot, accepted: seq<Event>)
    requires WindowsKept(cfg, slot, accepted) && slot.buf.currentShortWindow == []
    ensures WindowsKept(cfg, slot.(buf := NEW_BUFFER), accepted)
  {
  }

  /**
   * Short-window conservation. Whatever the timestamps, the dumps and the evictions: the posted windows followed
   * by the open one are exactly the container's accepted events in order, and each post was made at the first
   * event at which its window was due.
   */
  lemma {:induction false} ShortWindowConservation(cfg: Config, ins: seq<Input>, c: ContainerId)
    ensures WindowsKept(cfg, SlotOf(Run(cfg, ins), c), EventsOf(ins, c))
  {
    if ins == [] {
      assert Concat<Event>([]) + [] == [];
    } else {
      var n := |ins| - 1;
      var s := Run(cfg, ins[..n]);
      ShortWindowConservation(cfg, ins[..n], c);
      var after := StepSlot(cfg, SlotOf(s, c), ins[n], c, c in s.buffers);
      StepAtContainer(cfg, s, ins[n], c);
      StepKeepsWindows(cfg, SlotOf(s, c), ins[n], c, c in s.buffers, EventsOf(ins[..n], c));
      assert EventsOf(ins, c) == if IsEventOf(ins[n], c) then EventsOf(ins[..n], c) + [ins[n].event] else EventsOf(ins[..n], c);
      assert WindowsKept(cfg, after, EventsOf(ins, c));
      if Idle(after.buf) {
        IdleForgetsNoWindow(cfg, after, EventsOf(ins, c));
      }
    }
  }

  lemma PrefixNotComplete(cfg: Config, es: seq<Event>, a: seq<Event>)
    requires NoPrefixComplete(cfg, es) && a <= es
    ensures !Complete(cfg, a)
  {
    assert a == es[..|a|];
  }

  lemma EarliestIsShortest(cfg: Config, a: seq<Event>, b: seq<Event>, whole: seq<Event>)
    requires a <= whole && b <= whole && EarliestComplete(cfg, a) && Complete(cfg, b)
    ensures |a| <= |b|
  {
    if |b| < |a| {
      PrefixNotComplete(cfg, a[..|a| - 1], b);
    }
  }

  /** There is only one such cut, so conservation fixes what is posted completely. */
  lemma {:induction false} CutIsUnique(cfg: Config, p: seq<seq<Event>>, pr: seq<Event>, q: seq<seq<Event>>, qr: seq<Event>, accepted: seq<Event>)
    requires IsCut(cfg, p, pr, accepted) && IsCut(cfg, q, qr, accepted)
    ensures p == q && pr == qr
    decreases |p| + |q|
  {
    if p != [] { ConcatFromFront(p); assert accepted == p[0] + (Concat(p[1..]) + pr); }
    if q != [] { ConcatFromFront(q); assert accepted == q[0] + (Concat(q[1..]) + qr); }
    if p == [] {
      assert pr == accepted;
      if q != [] { PrefixNotComplete(cfg, pr, q[0]); }
    } else if q == [] {
      assert qr == accepted;
      PrefixNotComplete(cfg, qr, p[0]);
    } else {
      EarliestIsShortest(cfg, p[0], q[0], accepted);
      EarliestIsShortest(cfg, q[0], p[0], accepted);
      assert p[0] == accepted[..|p[0]|] == q[0];
      var left := accepted[|p[0]|..];
      assert Concat(p[1..]) + pr == left && Concat(q[1..]) + qr == left;
      CutIsUnique(cfg, p[1..], pr, q[1..], qr, left);
      assert p == [p[0]] + p[1..] && q == [q[0]] + q[1..];
    }
  }

  /** So what a run has posted is the one cut of the events it accepted, whatever came between them. */
  lemma PostsAreTheCut(cfg: Config, ins: seq<Input>, c: ContainerId, pieces: seq<seq<Event>>, rest: seq<Event>)
    requires IsCut(cfg, pieces, rest, EventsOf(ins, c))
    ensures Bodies(LogOf(Run(cfg, ins), c).windows) == pieces
    ensures BufferOf(Run(cfg, ins), c).currentShortWindow == rest
  {
    ShortWindowConservation(cfg, ins, c);
    CutIsUnique(cfg, pieces, rest, Bodies(LogOf(Run(cfg, ins), c).windows), BufferOf(Run(cfg, ins), c).currentShortWindow, EventsOf(ins, c));
  }

  /**
   * The payload of a posted window starts at its first event and, against that start, gives back to within a
   * microsecond exactly those of its timestamps that are not before it: unlike the dump's, these deltas do not drift.
   */
  lemma PayloadClock(cfg: Config, ins: seq<Input>, c: ContainerId, i: nat, j: nat)
    requires i < |LogOf(Run(cfg, ins), c).windows|
    requires j < |LogOf(Run(cfg, ins), c).windows[i].events|
    ensures var p := LogOf(Run(cfg, ins), c).windows[i];
            var rs := WindowRecords(p.windowStartTsNs, p.events);
            && RecordKinds(rs) == EventKinds(p.events) && rs[0].deltaUs == 0
            && (0 <= p.events[j].tsNs - (p.windowStartTsNs + 1000 * rs[j].deltaUs) < 1000 <==> p.events[0].tsNs <= p.events[j].tsNs)
  {
    hide Step, Run, RecordKinds, EventKinds;
    ShortWindowConservation(cfg, ins, c);
    var p := LogOf(Run(cfg, ins), c).windows[i];
    WindowTimesDoNotDrift(p.windowStartTsNs, p.events, 0);
    WindowTimesDoNotDrift(p.windowStartTsNs, p.events, j);
  }
}
