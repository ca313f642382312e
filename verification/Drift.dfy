/** How far the reader's clock, a sum of truncated deltas, falls behind the true time of the events. */
module Drift {
  import opened Widths
  import opened Trace
  import opened Division
  import opened Windower

  /** One microsecond more than the largest delta a record can hold, in nanoseconds. */
  const DELTA_LIMIT_NS := 4_294_967_296_000

  /** Stamps that do not decrease, the first not before the dump's start. */
  predicate Ordered(startNs: u64, es: seq<Event>) {
    && (es != [] ==> startNs <= es[0].tsNs)
    && (forall i :: 0 < i < |es| ==> es[i - 1].tsNs <= es[i].tsNs)
  }

  function Elapsed(startNs: u64, es: seq<Event>): int { if es == [] then 0 else es[|es| - 1].tsNs - startNs }

  /** The record holds the whole number of microseconds since `prevNs`. */
  predicate DeltaKept(e: Event, prevNs: u64) { MakeTraceRecord(e, prevNs).deltaUs == (e.tsNs - prevNs) / 1000 }

  lemma ShortGapIsKept(e: Event, prevNs: u64)
    requires prevNs <= e.tsNs && e.tsNs - prevNs < DELTA_LIMIT_NS
    ensures DeltaKept(e, prevNs)
  {
    Sub64Exact(e.tsNs, prevNs);
  }

  /** No gap inside a dump of `durationSec` seconds overflows its 32 bits if and only if that is at most 4294. */
  lemma NoDeltaCutIff(durationSec: nat)
    ensures (forall e: Event, prevNs: u64 :: prevNs <= e.tsNs < prevNs + durationSec * NS_PER_SEC ==> DeltaKept(e, prevNs))
            <==> durationSec <= 4294
  {
    if durationSec <= 4294 {
      forall e: Event, prevNs: u64 | prevNs <= e.tsNs < prevNs + durationSec * NS_PER_SEC
        ensures DeltaKept(e, prevNs)
      {
        ShortGapIsKept(e, prevNs);
      }
    } else {
      var e := Event(DELTA_LIMIT_NS, 0, 0, 0);
      assert e.tsNs < 0 + durationSec * NS_PER_SEC;
      assert MakeTraceRecord(e, 0).deltaUs == 0;
      assert !DeltaKept(e, 0);
    }
  }

  lemma {:induction false} ElapsedGrows(startNs: u64, es: seq<Event>)
    requires Ordered(startNs, es) && es != []
    ensures 0 <= Elapsed(startNs, es[..|es| - 1]) <= Elapsed(startNs, es)
  {
    if |es| > 1 { ElapsedGrows(startNs, es[..|es| - 1]); }
  }

  /** In ordered stamps each delta counts from the event before, even where that was stamped zero. */
  lemma PreviousIsLast(startNs: u64, es: seq<Event>)
    requires Ordered(startNs, es)
    ensures Previous(startNs, es) == startNs + Elapsed(startNs, es)
  {
    if es != [] { ElapsedGrows(startNs, es); }
  }

  /** The time before the last event. */
  function LastGap(startNs: u64, es: seq<Event>): int
    requires es != []
  {
    es[|es| - 1].tsNs - if |es| == 1 then startNs else es[|es| - 2].tsNs
  }

  /** Every gap fits the 32 bits of its delta. */
  predicate GapsFit(startNs: u64, es: seq<Event>) {
    es == [] || (GapsFit(startNs, es[..|es| - 1]) && LastGap(startNs, es) < DELTA_LIMIT_NS)
  }

  /** What a record loses of its gap: less than a microsecond if the gap fits, more than an hour if it does not. */
  lemma LossOfRecord(e: Event, prevNs: u64)
    requires prevNs <= e.tsNs
    ensures var gap, loss := e.tsNs - prevNs, e.tsNs - prevNs - 1000 * MakeTraceRecord(e, prevNs).deltaUs;
            if gap < DELTA_LIMIT_NS then 0 <= loss <= 999 else DELTA_LIMIT_NS <= loss
  {
    Sub64Exact(e.tsNs, prevNs);
  }

  /** The losses add up, and a single cut gap outweighs them all. */
  lemma {:induction false} LossesAddUp(startNs: u64, es: seq<Event>)
    requires Ordered(startNs, es)
    ensures var loss := Elapsed(startNs, es) - 1000 * Total(Deltas(startNs, es));
            if GapsFit(startNs, es) then 0 <= loss <= 999 * |es| else DELTA_LIMIT_NS <= loss
  {
    hide MakeTraceRecord, Previous;
    if es != [] {
      var n := |es| - 1;
      LossesAddUp(startNs, es[..n]);
      PreviousIsLast(startNs, es[..n]);
      ElapsedGrows(startNs, es);
      LossOfRecord(es[n], Previous(startNs, es[..n]));
      var rs := Deltas(startNs, es);
      assert rs[..n] == Deltas(startNs, es[..n]);
    }
  }

  /**
   * The reader's time falls behind by at most 999 ns a record, and is never ahead, if and only if no gap between
   * events overflows its delta (for up to 2^32 records, beyond which the losses could hide a cut gap).
   */
  lemma DriftBoundIff(startNs: u64, es: seq<Event>)
    requires Ordered(startNs, es) && |es| <= 0x1_0000_0000
    ensures 0 <= Elapsed(startNs, es) - 1000 * Total(Deltas(startNs, es)) <= 999 * |es| <==> GapsFit(startNs, es)
  {
    LossesAddUp(startNs, es);
  }

  // ---- any stamps at all ----

  /** How far the reader's time is behind after `es`, in nanoseconds. */
  function Lag(startNs: u64, es: seq<Event>): int { Elapsed(startNs, es) - 1000 * Total(Deltas(startNs, es)) }

  /** After each record the reader's time is behind by at most 999 ns a record, and not ahead. */
  ghost predicate ClockIsRight(startNs: u64, es: seq<Event>) {
    forall n :: 0 <= n <= |es| ==> 0 <= Lag(startNs, es[..n]) <= 999 * n
  }

  /** A record stamped before the previous one sets the reader's clock ahead by more than 21 minutes. */
  lemma BackwardsGap(e: Event, prevNs: u64)
    requires e.tsNs < prevNs
    ensures 1_271_310_318_617 <= prevNs - e.tsNs + 1000 * MakeTraceRecord(e, prevNs).deltaUs
  {
    var wrapped := 0x1_0000_0000_0000_0000 - (prevNs - e.tsNs);
    var us := wrapped / 1000;
    var times, delta := us / 0x1_0000_0000, us % 0x1_0000_0000;
    assert Sub64(e.tsNs, prevNs) == wrapped;
    assert delta == MakeTraceRecord(e, prevNs).deltaUs;
    assert wrapped < 1000 * (0x1_0000_0000 * times + delta) + 1000;
    assert times <= 4_294_967;
  }

  /** The last event comes no earlier than the one before, and its gap fits. */
  predicate GoodGap(startNs: u64, es: seq<Event>)
    requires es != []
  {
    Previous(startNs, es[..|es| - 1]) <= es[|es| - 1].tsNs < Previous(startNs, es[..|es| - 1]) + DELTA_LIMIT_NS
  }

  lemma LagStep(startNs: u64, es: seq<Event>)
    requires es != [] && Ordered(startNs, es[..|es| - 1]) && 0 <= Lag(startNs, es[..|es| - 1]) <= 999 * 0x4000_0000
    ensures if GoodGap(startNs, es) then 0 <= Lag(startNs, es) - Lag(startNs, es[..|es| - 1]) <= 999
            else Lag(startNs, es) < 0 || DELTA_LIMIT_NS <= Lag(startNs, es)
  {
    hide MakeTraceRecord, Previous;
    var n := |es| - 1;
    var prev := Previous(startNs, es[..n]);
    PreviousIsLast(startNs, es[..n]);
    assert Deltas(startNs, es)[..n] == Deltas(startNs, es[..n]);
    if prev <= es[n].tsNs { LossOfRecord(es[n], prev); } else { BackwardsGap(es[n], prev); }
  }

  lemma OrderedExtends(startNs: u64, es: seq<Event>)
    requires es != []
    ensures var init := es[..|es| - 1];
            Ordered(startNs, es) <==> Ordered(startNs, init) && startNs + Elapsed(startNs, init) <= es[|es| - 1].tsNs
  {
    var init := es[..|es| - 1];
    if Ordered(startNs, init) && startNs + Elapsed(startNs, init) <= es[|es| - 1].tsNs {
      forall i | 0 < i < |es| ensures es[i - 1].tsNs <= es[i].tsNs {
        assert i < |init| ==> init[i - 1].tsNs <= init[i].tsNs;
      }
    }
  }

  lemma GoodGapExtends(startNs: u64, es: seq<Event>)
    requires es != []
    ensures Ordered(startNs, es) && GapsFit(startNs, es) <==>
            Ordered(startNs, es[..|es| - 1]) && GapsFit(startNs, es[..|es| - 1]) && GoodGap(startNs, es)
  {
    hide Ordered, Previous;
    var init := es[..|es| - 1];
    OrderedExtends(startNs, es);
    assert LastGap(startNs, es) == es[|es| - 1].tsNs - startNs - Elapsed(startNs, init);
    if Ordered(startNs, init) { PreviousIsLast(startNs, init); }
  }

  /**
   * For any stamps whatever, of up to 2^30 events: the reader's clock is right after each record if and only if the
   * events come in the order of their stamps, none before the start, and every gap fits its delta.
   */
  lemma {:induction false} ClockIsRightIff(startNs: u64, es: seq<Event>)
    requires |es| <= 0x4000_0000
    ensures ClockIsRight(startNs, es) <==> Ordered(startNs, es) && GapsFit(startNs, es)
  {
    if es != [] {
      var n := |es| - 1;
      ClockIsRightIff(startNs, es[..n]);
      GoodGapExtends(startNs, es);
      ClockExtends(startNs, es);
      if ClockIsRight(startNs, es[..n]) {
        assert es[..n][..n] == es[..n];
        LagStep(startNs, es);
      }
    }
  }

  lemma ClockExtends(startNs: u64, es: seq<Event>)
    requires es != []
    ensures ClockIsRight(startNs, es) <==> ClockIsRight(startNs, es[..|es| - 1]) && 0 <= Lag(startNs, es) <= 999 * |es|
  {
    hide Lag;
    var init := es[..|es| - 1];
    assert forall n :: 0 <= n <= |init| ==> es[..n] == init[..n];
    assert es[..|es|] == es;
    if ClockIsRight(startNs, init) && 0 <= Lag(startNs, es) <= 999 * |es| {
      forall n | 0 <= n <= |es| ensures 0 <= Lag(startNs, es[..n]) <= 999 * n {
        assert n <= |init| ==> es[..n] == init[..n];
      }
    }
  }

  lemma {:induction false} ShortDumpGapsFit(startNs: u64, es: seq<Event>)
    requires Ordered(startNs, es) && Elapsed(startNs, es) < DELTA_LIMIT_NS
    ensures GapsFit(startNs, es)
  {
    if es != [] {
      var n := |es| - 1;
      ElapsedGrows(startNs, es);
      ShortDumpGapsFit(startNs, es[..n]);
    }
  }

  /** After `n` records the reader's time is at most 999 n / 1000 microseconds behind, and its window no more than that in windows. */
  predicate KeepsUp(trueNs: int, readUs: int, n: nat, w: int)
    requires 0 < w
  {
    var trueUs, lag := trueNs / 1000, 999 * n / 1000;
    && 0 <= trueUs - readUs <= lag
    && readUs / w <= trueUs / w <= readUs / w + CeilDiv(lag, w)
  }

  /**
   * After `n` records the reader's time is behind the true one by at most 999 n / 1000 microseconds, never ahead;
   * so a record's window is never later than the true one, and earlier by no more than that lag in windows.
   */
  lemma ReaderLag(startNs: u64, es: seq<Event>, w: int)
    requires Ordered(startNs, es) && GapsFit(startNs, es) && 0 < w
    ensures KeepsUp(Elapsed(startNs, es), Total(Deltas(startNs, es)), |es|, w)
  {
    LossesAddUp(startNs, es);
    DivLag(Total(Deltas(startNs, es)), Elapsed(startNs, es) / 1000, w, 999 * |es| / 1000);
  }

  /** The bound is reached: events 1999 ns apart lose 999 ns each. */
  lemma {:induction false} DriftIsReached(es: seq<Event>)
    requires forall i :: 0 <= i < |es| ==> es[i].tsNs == 1999 * (i + 1)
    ensures Elapsed(0, es) - 1000 * Total(Deltas(0, es)) == 999 * |es|
  {
    if es != [] {
      var n := |es| - 1;
      DriftIsReached(es[..n]);
      ShortGapIsKept(es[n], Previous(0, es[..n]));
      assert Deltas(0, es)[..n] == Deltas(0, es[..n]);
    }
  }

  lemma {:induction false} DeltasOfPrefix(startNs: u64, es: seq<Event>, n: nat)
    requires n <= |es|
    ensures Deltas(startNs, es)[..n] == Deltas(startNs, es[..n])
  {
    if n == |es| {
      assert es[..n] == es;
    } else {
      DeltasOfPrefix(startNs, es[..|es| - 1], n);
      assert es[..|es| - 1][..n] == es[..n];
    }
  }
}
