/** The training tool's one-pass splitter, and the grouping by time index that it computes. */
module Windower {
  import opened Common
  import opened Trace
  import opened Division

  /** The time a reader has accumulated after all of `rs`, in microseconds. */
  function Total(rs: seq<PackedRecord>): nat {
    if rs == [] then 0 else Total(rs[..|rs| - 1]) + rs[|rs| - 1].deltaUs
  }

  lemma TotalExtend(rs: seq<PackedRecord>, i: nat)
    requires i < |rs|
    ensures Total(rs[..i + 1]) == Total(rs[..i]) + rs[i].deltaUs
  {
    assert rs[..i + 1][..i] == rs[..i];
  }

  /** Which period of length `w` the time `t` falls in. */
  function TimeIndex(t: nat, w: int): nat
    requires 0 < w
  {
    DivNonNegative(t, w);
    t / w
  }

  /** When period `q` begins. */
  function PeriodStart(w: int, q: nat): nat
    requires 0 < w
  {
    w * q
  }

  lemma PeriodZero(w: int)
    requires 0 < w
    ensures PeriodStart(w, 0) == 0
  {
  }

  lemma NextPeriod(w: int, q: nat)
    requires 0 < w
    ensures PeriodStart(w, q + 1) == PeriodStart(w, q) + w
  {
  }

  lemma TimeIndexIs(t: nat, w: int, q: nat)
    requires 0 < w && PeriodStart(w, q) <= t < PeriodStart(w, q) + w
    ensures TimeIndex(t, w) == q
  {
    DivUnique(t, w, q);
  }

  lemma TimeIndexMonotone(a: nat, b: nat, w: int)
    requires a <= b && 0 < w
    ensures TimeIndex(a, w) <= TimeIndex(b, w)
  {
    DivMonotone(a, b, w);
  }

  lemma SamePeriodIsClose(a: nat, b: nat, w: int)
    requires 0 < w && a <= b && TimeIndex(a, w) == TimeIndex(b, w)
    ensures b - a < w
  {
    DivBounds(a, w);
    DivBounds(b, w);
  }

  lemma InItsPeriod(t: nat, w: int)
    requires 0 < w
    ensures PeriodStart(w, TimeIndex(t, w)) <= t < PeriodStart(w, TimeIndex(t, w) + 1)
  {
    DivBounds(t, w);
    NextPeriod(w, TimeIndex(t, w));
  }

  lemma PeriodsIncrease(w: int, p: nat, q: nat)
    requires 0 < w && p < q
    ensures PeriodStart(w, p + 1) <= PeriodStart(w, q)
    ensures PeriodStart(w, p) < PeriodStart(w, q)
  {
    NextPeriod(w, p);
    MulStep(w, p, q);
  }

  /** The time index of each record: that of the time accumulated with it. */
  function Indices(rs: seq<PackedRecord>, w: int): seq<nat>
    requires 0 < w
  {
    if rs == [] then [] else Indices(rs[..|rs| - 1], w) + [TimeIndex(Total(rs), w)]
  }

  lemma {:induction false} IndexAt(rs: seq<PackedRecord>, w: int, i: nat)
    requires 0 < w && i < |rs|
    ensures |Indices(rs, w)| == |rs| && Indices(rs, w)[i] == TimeIndex(Total(rs[..i + 1]), w)
  {
    hide TimeIndex;
    var n := |rs| - 1;
    if n == 0 {
      assert rs[..i + 1] == rs && rs[..n] == [];
    } else {
      IndexAt(rs[..n], w, if i < n then i else 0);
      assert if i < n then rs[..n][..i + 1] == rs[..i + 1] else rs[..i + 1] == rs;
    }
  }

  /** The records of one time index. */
  datatype Window = Window(index: nat, records: seq<PackedRecord>)

  function Flatten(ws: seq<Window>): seq<PackedRecord> {
    if ws == [] then [] else Flatten(ws[..|ws| - 1]) + ws[|ws| - 1].records
  }

  function Repeat(n: nat, times: nat): seq<nat> { seq(times, _ => n) }

  /** The index of the window each record lies in. */
  function Tags(ws: seq<Window>): seq<nat> {
    if ws == [] then [] else Tags(ws[..|ws| - 1]) + Repeat(ws[|ws| - 1].index, |ws[|ws| - 1].records|)
  }

  predicate Increasing(ws: seq<Window>) {
    forall i, j :: 0 <= i < j < |ws| ==> ws[i].index < ws[j].index
  }

  /** Nonempty windows with strictly increasing indices, in record order, each record in the window of its own index. */
  predicate IsGrouping(rs: seq<PackedRecord>, w: int, ws: seq<Window>)
    requires 0 < w
  {
    && Flatten(ws) == rs
    && Tags(ws) == Indices(rs, w)
    && Increasing(ws)
    && (forall i :: 0 <= i < |ws| ==> ws[i].records != [])
  }

  function Group(rs: seq<PackedRecord>, w: int): seq<Window>
    requires 0 < w
  {
    if rs == [] then []
    else
      var n := |rs| - 1;
      Place(Group(rs[..n], w), TimeIndex(Total(rs), w), rs[n])
  }

  /** Add a record to the last window if that has its index, else to a new one. */
  function Place(ws: seq<Window>, index: nat, r: PackedRecord): seq<Window> {
    var n := |ws| - 1;
    if ws != [] && ws[n].index == index then ws[..n] + [Window(index, ws[n].records + [r])]
    else ws + [Window(index, [r])]
  }

  function Bodies(ws: seq<Window>): seq<seq<PackedRecord>> {
    seq(|ws|, i requires 0 <= i < |ws| => ws[i].records)
  }

  // ---- the grouping meets its definition and is the only one that does ----

  lemma FlattenExtend(ws: seq<Window>, x: Window)
    ensures Flatten(ws + [x]) == Flatten(ws) + x.records
    ensures Tags(ws + [x]) == Tags(ws) + Repeat(x.index, |x.records|)
  {
    assert (ws + [x])[..|ws|] == ws;
  }

  lemma RepeatStep(n: nat, times: nat)
    ensures Repeat(n, times + 1) == Repeat(n, times) + [n] && Repeat(n, 0) == []
  {
  }

  lemma PlaceAppends(ws: seq<Window>, index: nat, r: PackedRecord)
    ensures Flatten(Place(ws, index, r)) == Flatten(ws) + [r] && Tags(Place(ws, index, r)) == Tags(ws) + [index]
  {
    hide Flatten, Tags, Repeat;
    var n := |ws| - 1;
    if ws != [] && ws[n].index == index {
      assert ws == ws[..n] + [ws[n]];
      FlattenExtend(ws[..n], ws[n]);
      FlattenExtend(ws[..n], Window(index, ws[n].records + [r]));
      RepeatStep(index, |ws[n].records|);
    } else {
      FlattenExtend(ws, Window(index, [r]));
      RepeatStep(index, 0);
    }
  }

  lemma PlaceEffect(ws: seq<Window>, index: nat, r: PackedRecord)
    requires Increasing(ws) && (ws != [] ==> ws[|ws| - 1].index <= index)
    requires forall i :: 0 <= i < |ws| ==> ws[i].records != []
    ensures var after := Place(ws, index, r);
            && Flatten(after) == Flatten(ws) + [r] && Tags(after) == Tags(ws) + [index]
            && Increasing(after) && after != [] && after[|after| - 1].index == index
            && (forall i :: 0 <= i < |after| ==> after[i].records != [])
  {
    hide Flatten, Tags, Repeat;
    PlaceAppends(ws, index, r);
  }

  lemma {:induction false} GroupIsGrouping(rs: seq<PackedRecord>, w: int)
    requires 0 < w
    ensures IsGrouping(rs, w, Group(rs, w))
    ensures rs != [] ==> Group(rs, w) != [] && Group(rs, w)[|Group(rs, w)| - 1].index == TimeIndex(Total(rs), w)
  {
    hide TimeIndex, Place;
    if rs != [] {
      var n := |rs| - 1;
      var ws := Group(rs[..n], w);
      GroupIsGrouping(rs[..n], w);
      if n > 0 { TimeIndexMonotone(Total(rs[..n]), Total(rs), w); }
      PlaceEffect(ws, TimeIndex(Total(rs), w), rs[n]);
      assert rs == rs[..n] + [rs[n]];
    }
  }

  lemma {:induction false} TagsLength(ws: seq<Window>)
    ensures |Tags(ws)| == |Flatten(ws)|
  {
    if ws != [] { TagsLength(ws[..|ws| - 1]); }
  }

  lemma {:induction false} TagsBelow(ws: seq<Window>, bound: nat)
    requires forall i :: 0 <= i < |ws| ==> ws[i].index < bound
    ensures forall t <- Tags(ws) :: t < bound
  {
    if ws != [] { TagsBelow(ws[..|ws| - 1], bound); }
  }

  /** In the tags, the last window is exactly the trailing stretch of its own index. */
  lemma LastWindowLength(ws: seq<Window>, tags: seq<nat>, k: nat)
    requires ws != [] && Increasing(ws) && tags == Tags(ws) && ws[|ws| - 1].records != [] && k <= |tags|
    requires k < |tags| && (forall i :: k <= i < |tags| ==> tags[i] == tags[|tags| - 1])
    requires k > 0 ==> tags[k - 1] != tags[|tags| - 1]
    ensures |ws[|ws| - 1].records| == |tags| - k && ws[|ws| - 1].index == tags[|tags| - 1]
  {
    var n := |ws| - 1;
    var init := Tags(ws[..n]);
    TagsBelow(ws[..n], ws[n].index);
    assert tags[|tags| - 1] == ws[n].index;
    assert forall i :: 0 <= i < |init| ==> tags[i] == init[i] && init[i] in init;
    assert forall i :: |init| <= i < |tags| ==> tags[i] == ws[n].index;
    assert |init| == 0 || tags[|init| - 1] == init[|init| - 1];
    assert k == 0 || tags[k - 1] != ws[n].index;
  }

  function LastStretch(tags: seq<nat>): (k: nat)
    requires tags != []
    ensures k < |tags| && (forall i :: k <= i < |tags| ==> tags[i] == tags[|tags| - 1])
    ensures k > 0 ==> tags[k - 1] != tags[|tags| - 1]
  {
    var n := |tags| - 1;
    if n == 0 || tags[n - 1] != tags[n] then n else LastStretch(tags[..n])
  }

  /** The tags alone say where the last window begins. */
  lemma LastWindowIsCut(ws: seq<Window>, rs: seq<PackedRecord>, tags: seq<nat>, k: nat)
    requires ws != [] && Flatten(ws) == rs && Tags(ws) == tags && tags != [] && k == LastStretch(tags)
    requires Increasing(ws) && (forall i :: 0 <= i < |ws| ==> ws[i].records != [])
    ensures var init := ws[..|ws| - 1];
            && k < |rs| == |tags| && Flatten(init) == rs[..k] && Tags(init) == tags[..k]
            && ws[|ws| - 1] == Window(tags[|tags| - 1], rs[k..])
            && Increasing(init) && (forall i :: 0 <= i < |init| ==> init[i].records != [])
  {
    hide LastStretch, Repeat;
    var init, last := ws[..|ws| - 1], ws[|ws| - 1];
    TagsLength(ws);
    TagsLength(init);
    LastWindowLength(ws, tags, k);
    assert rs == Flatten(init) + last.records && tags == Tags(init) + Repeat(last.index, |last.records|);
    assert |Flatten(init)| == k && |Tags(init)| == k;
  }

  /** Two groupings of the same records are the same. */
  lemma {:induction false} GroupingIsUnique(rs: seq<PackedRecord>, tags: seq<nat>, a: seq<Window>, b: seq<Window>)
    requires Flatten(a) == rs && Tags(a) == tags && Increasing(a) && (forall i :: 0 <= i < |a| ==> a[i].records != [])
    requires Flatten(b) == rs && Tags(b) == tags && Increasing(b) && (forall i :: 0 <= i < |b| ==> b[i].records != [])
    ensures a == b
    decreases |a|
  {
    hide Flatten, Tags, LastStretch, Repeat, Increasing;
    NoTagsIff(a);
    NoTagsIff(b);
    if a != [] && b != [] {
      var m, n, k := |a| - 1, |b| - 1, LastStretch(tags);
      LastWindowIsCut(a, rs, tags, k);
      LastWindowIsCut(b, rs, tags, k);
      GroupingIsUnique(rs[..k], tags[..k], a[..m], b[..n]);
      assert a == a[..m] + [a[m]] && b == b[..n] + [b[n]];
    }
  }

  lemma NoTagsIff(ws: seq<Window>)
    requires forall i :: 0 <= i < |ws| ==> ws[i].records != []
    ensures Tags(ws) == [] <==> ws == []
  {
    hide Flatten;
  }

  // ---- the splitter ----

  /** The open window and its start, as the splitter's loop holds them after the records `done`. */
  ghost predicate Splitting(done: seq<PackedRecord>, w: int, windows: seq<seq<PackedRecord>>, current: seq<PackedRecord>,
                            windowStart: int, q: nat)
    requires 0 < w
  {
    var ws := Group(done, w);
    && windowStart == PeriodStart(w, q) <= Total(done) < windowStart + w
    && (if done == [] then ws == [] && windows == [] && current == []
        else ws != [] && current == ws[|ws| - 1].records && windows == Bodies(ws[..|ws| - 1]) && ws[|ws| - 1].index == q
             && current != [])
  }

  lemma SplittingPlaces(rs: seq<PackedRecord>, w: int, q: nat, index: nat, current: seq<PackedRecord>,
                        windows: seq<seq<PackedRecord>>)
    requires 0 < w && rs != []
    requires PeriodStart(w, index) <= Total(rs) < PeriodStart(w, index) + w
    requires var ws := Group(rs[..|rs| - 1], w);
             if index == q && ws != [] then current == ws[|ws| - 1].records && windows == Bodies(ws[..|ws| - 1]) && ws[|ws| - 1].index == q
             else current == [] && windows == Bodies(ws) && (ws != [] ==> ws[|ws| - 1].index != index)
    ensures Splitting(rs, w, windows, current + [rs[|rs| - 1]], PeriodStart(w, index), index)
  {
    TimeIndexIs(Total(rs), w, index);
    hide TimeIndex, PeriodStart;
    var ws := Group(rs, w);
    assert ws == Place(Group(rs[..|rs| - 1], w), index, rs[|rs| - 1]);
  }

  lemma SplittingStarts(w: int, done: seq<PackedRecord>)
    requires 0 < w && done == []
    ensures Total(done) == 0 && Splitting(done, w, [], [], 0, 0)
  {
    PeriodZero(w);
  }

  lemma BodiesExtend(ws: seq<Window>)
    ensures ws != [] ==> Bodies(ws) == Bodies(ws[..|ws| - 1]) + [ws[|ws| - 1].records]
    ensures ws == [] ==> Bodies(ws) == []
  {
  }

  /** The source loops for ever on a window length of zero or less. */
  method SplitIntoWindows(records: seq<PackedRecord>, windowDurationUs: int) returns (windows: seq<seq<PackedRecord>>)
    requires 0 < windowDurationUs
    ensures windows == Bodies(Group(records, windowDurationUs))
  {
    hide TimeIndex, PeriodStart, Group, Total, Bodies;
    SplittingStarts(windowDurationUs, records[..0]);
    if records == [] {
      BodiesExtend(Group(records, windowDurationUs));
      return [];
    }
    windows := [];
    var currentWindow: seq<PackedRecord> := [];
    var windowStart := 0;
    var cumulativeTs := 0;
    ghost var q: nat := 0;
    for i := 0 to |records|
      invariant cumulativeTs == Total(records[..i])
      invariant Splitting(records[..i], windowDurationUs, windows, currentWindow, windowStart, q)
    {
      ghost var ws, q0 := Group(records[..i], windowDurationUs), q;
      BodiesExtend(ws);
      TotalExtend(records, i);
      cumulativeTs := cumulativeTs + records[i].deltaUs;
      while cumulativeTs - windowStart >= windowDurationUs
        invariant windowStart == PeriodStart(windowDurationUs, q) <= cumulativeTs && q0 <= q
        invariant if q == q0 && ws != [] then currentWindow == ws[|ws| - 1].records && windows == Bodies(ws[..|ws| - 1])
                  else currentWindow == [] && windows == Bodies(ws)
        decreases cumulativeTs - windowStart
      {
        if currentWindow != [] {
          windows := windows + [currentWindow];
        }
        currentWindow := [];
        NextPeriod(windowDurationUs, q);
        windowStart := windowStart + windowDurationUs;
        q := q + 1;
      }
      assert records[..i + 1][..i] == records[..i];
      SplittingPlaces(records[..i + 1], windowDurationUs, q0, q, currentWindow, windows);
      currentWindow := currentWindow + [records[i]];
    }
    assert records[..|records|] == records;
    BodiesExtend(Group(records, windowDurationUs));
    if currentWindow != [] {
      windows := windows + [currentWindow];
    }
  }

  // ---- consequences ----

  lemma {:induction false} ConcatBodies(ws: seq<Window>)
    ensures Concat(Bodies(ws)) == Flatten(ws)
  {
    if ws != [] {
      ConcatBodies(ws[..|ws| - 1]);
      assert Bodies(ws)[..|ws| - 1] == Bodies(ws[..|ws| - 1]);
    }
  }

  lemma {:induction false} IndexAtLeastPosition(ws: seq<Window>, i: nat)
    requires Increasing(ws) && i < |ws|
    ensures i <= ws[i].index
  {
    if i > 0 { IndexAtLeastPosition(ws, i - 1); }
  }

  /** Splitting loses and reorders nothing, leaves no empty window, and yields at most one window per elapsed period. */
  lemma SplitIsPartition(rs: seq<PackedRecord>, w: int)
    requires 0 < w
    ensures Concat(Bodies(Group(rs, w))) == rs
    ensures forall b <- Bodies(Group(rs, w)) :: b != []
    ensures |Group(rs, w)| <= TimeIndex(Total(rs), w) + 1
  {
    hide TimeIndex, Group;
    var ws := Group(rs, w);
    GroupIsGrouping(rs, w);
    ConcatBodies(ws);
    if ws != [] { IndexAtLeastPosition(ws, |ws| - 1); }
  }

  // ---- the windows in the records ----

  /** How many records come before the `j`-th window. */
  function Before(ws: seq<Window>, j: nat): nat
    requires j <= |ws|
  {
    |Flatten(ws[..j])|
  }

  lemma {:induction false} SliceOfFlatten(ws: seq<Window>, j: nat)
    requires j < |ws|
    ensures var s, e := Before(ws, j), Before(ws, j) + |ws[j].records|;
            && s <= e <= |Flatten(ws)| == |Tags(ws)| && Before(ws, j + 1) == e
            && Flatten(ws)[s..e] == ws[j].records
            && forall i :: s <= i < e ==> Tags(ws)[i] == ws[j].index
  {
    hide Repeat;
    var n := |ws| - 1;
    TagsLength(ws[..n]);
    TagsLength(ws);
    if j < n {
      SliceOfFlatten(ws[..n], j);
      assert ws[..n][..j] == ws[..j] && ws[..n][..j + 1] == ws[..j + 1];
      var s, e := Before(ws, j), Before(ws, j) + |ws[j].records|;
      assert Flatten(ws)[s..e] == Flatten(ws[..n])[s..e];
    } else {
      assert ws[..j + 1] == ws;
      LastIsRepeated(ws);
    }
  }

  lemma LastIsRepeated(ws: seq<Window>)
    requires ws != []
    ensures var n := |ws| - 1;
            && |Tags(ws)| == |Tags(ws[..n])| + |ws[n].records|
            && forall i :: |Tags(ws[..n])| <= i < |Tags(ws)| ==> Tags(ws)[i] == ws[n].index
  {
  }

  /** The `j`-th window is one stretch of the records, and each of its records falls in the period of its index. */
  lemma WindowAt(rs: seq<PackedRecord>, w: int, j: nat)
    requires 0 < w && j < |Group(rs, w)|
    ensures var ws := Group(rs, w);
            var s, e := Before(ws, j), Before(ws, j) + |ws[j].records|;
            && s < e <= |rs| && rs[s..e] == ws[j].records && (s == 0 <==> j == 0)
            && (forall i :: s < i <= e ==> TimeIndex(Total(rs[..i]), w) == ws[j].index)
            && (s > 0 ==> TimeIndex(Total(rs[..s]), w) < ws[j].index)
  {
    hide Group, TimeIndex, Total, Indices, Tags, Repeat;
    var ws := Group(rs, w);
    GroupIsGrouping(rs, w);
    SliceOfFlatten(ws, j);
    var s, e := Before(ws, j), Before(ws, j) + |ws[j].records|;
    forall i | s < i <= e ensures TimeIndex(Total(rs[..i]), w) == ws[j].index {
      IndexAt(rs, w, i - 1);
      assert Tags(ws)[i - 1] == ws[j].index;
    }
    if j > 0 {
      SliceOfFlatten(ws, j - 1);
      IndexAt(rs, w, s - 1);
      assert Tags(ws)[s - 1] == ws[j - 1].index;
    }
  }

  /** Before the first record of period `q`, the time is the beginning of that period only at the very first. */
  lemma StartIffFirst(rs: seq<PackedRecord>, w: int, s: nat, q: nat)
    requires 0 < w && s <= |rs| && (s > 0 ==> TimeIndex(Total(rs[..s]), w) < q)
    ensures Total(rs[..s]) == PeriodStart(w, q) <==> s == 0 && q == 0
  {
    hide TimeIndex, PeriodStart;
    PeriodZero(w);
    if s > 0 {
      InItsPeriod(Total(rs[..s]), w);
      PeriodsIncrease(w, TimeIndex(Total(rs[..s]), w), q);
    } else if q > 0 {
      PeriodsIncrease(w, 0, q);
    }
  }

  lemma {:induction false} TotalConcat(a: seq<PackedRecord>, b: seq<PackedRecord>)
    ensures Total(a + b) == Total(a) + Total(b)
  {
    if b == [] {
      assert a + b == a;
    } else {
      TotalConcat(a, b[..|b| - 1]);
      assert (a + b)[..|a + b| - 1] == a + b[..|b| - 1];
    }
  }

  /** Records of one time index lie less than a window length apart. */
  lemma SpanBelowWindow(rs: seq<PackedRecord>, w: int, i: nat, j: nat)
    requires 0 < w && i <= j < |rs| == |Indices(rs, w)| && Indices(rs, w)[i] == Indices(rs, w)[j]
    ensures 0 <= Total(rs[..j + 1]) - Total(rs[..i + 1]) < w
  {
    hide TimeIndex, Total;
    IndexAt(rs, w, i);
    IndexAt(rs, w, j);
    TotalMonotone(rs, i + 1, j + 1);
    SamePeriodIsClose(Total(rs[..i + 1]), Total(rs[..j + 1]), w);
  }

  /** The records of each window the splitter returns come less than a window length after its first. */
  lemma WindowsAreShort(rs: seq<PackedRecord>, w: int)
    requires 0 < w
    ensures forall b <- Bodies(Group(rs, w)) :: b != [] && Total(b[1..]) < w
  {
    hide Group, TimeIndex, Total, Indices, Before;
    var ws := Group(rs, w);
    forall b | b in Bodies(ws) ensures b != [] && Total(b[1..]) < w {
      var j :| 0 <= j < |ws| && ws[j].records == b;
      WindowAt(rs, w, j);
      var s, e := Before(ws, j), Before(ws, j) + |b|;
      TotalConcat(rs[..s + 1], rs[s + 1..e]);
      assert rs[..s + 1] + rs[s + 1..e] == rs[..e] && rs[s + 1..e] == b[1..];
      IndexAt(rs, w, s);
      IndexAt(rs, w, e - 1);
      SpanBelowWindow(rs, w, s, e - 1);
    }
  }

  lemma {:induction false} TotalMonotone(rs: seq<PackedRecord>, i: nat, j: nat)
    requires i <= j <= |rs|
    ensures Total(rs[..i]) <= Total(rs[..j])
  {
    if i < j {
      TotalMonotone(rs, i, j - 1);
      assert rs[..j][..j - 1] == rs[..j - 1];
    }
  }
}
