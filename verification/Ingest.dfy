/** The repositories that window ingestion writes, and one request's saves in order. */
module Ingest {
  import opened Common
  import opened Trace
  import opened Scoring
  import opened Triage

  datatype Status = Pending | StatusSafe | StatusThreat | Unknown

  /** Ids are fresh: a window, its triage result and its policy carry the number of their request. */
  datatype Window = Window(id: nat, containerId: ContainerId, mlScore: real, anomalous: bool, status: Status, triageId: Option<nat>)
  datatype TriageResult = TriageResult(id: nat, containerId: ContainerId, windowId: nat, verdict: Verdict, explanation: Explanation)
  datatype StoredPolicy = StoredPolicy(id: nat, containerId: ContainerId)

  datatype Store = Store(windows: seq<Window>, triages: seq<TriageResult>, policies: seq<StoredPolicy>)

  const EMPTY := Store([], [], [])

  function RemoveId(ws: seq<Window>, id: nat): seq<Window> {
    if ws == [] then []
    else RemoveId(ws[..|ws| - 1], id) + if ws[|ws| - 1].id == id then [] else [ws[|ws| - 1]]
  }

  function OfContainer(ws: seq<Window>, c: ContainerId): seq<Window> {
    if ws == [] then []
    else OfContainer(ws[..|ws| - 1], c) + if ws[|ws| - 1].containerId == c then [ws[|ws| - 1]] else []
  }

  function Latest(ws: seq<Window>, c: ContainerId): Option<Window> {
    var mine := OfContainer(ws, c);
    if mine == [] then None else Some(mine[|mine| - 1])
  }

  function LatestForWindow(ts: seq<TriageResult>, windowId: nat): Option<TriageResult> {
    if ts == [] then None
    else if ts[|ts| - 1].windowId == windowId then Some(ts[|ts| - 1])
    else LatestForWindow(ts[..|ts| - 1], windowId)
  }

  class AnomalyWindowRepository {
    var windows: seq<Window>

    constructor ()
      ensures windows == []
    {
      windows := [];
    }

    method RemoveIf(id: nat)
      modifies this
      ensures windows == RemoveId(old(windows), id)
    {
      var kept := [];
      for i := 0 to |windows|
        invariant windows == old(windows) && kept == RemoveId(windows[..i], id)
      {
        assert windows[..i + 1][..i] == windows[..i];
        if windows[i].id != id {
          kept := kept + [windows[i]];
        }
      }
      assert windows[..|windows|] == windows;
      windows := kept;
    }

    /** Two separate updates of the list: another request can come between them. */
    method Save(window: Window)
      modifies this
      ensures windows == RemoveId(old(windows), window.id) + [window]
    {
      RemoveIf(window.id);
      windows := windows + [window];
    }

    method Filter(c: ContainerId) returns (mine: seq<Window>)
      ensures mine == OfContainer(windows, c)
    {
      mine := [];
      for i := 0 to |windows|
        invariant mine == OfContainer(windows[..i], c)
      {
        assert windows[..i + 1][..i] == windows[..i];
        if windows[i].containerId == c {
          mine := mine + [windows[i]];
        }
      }
      assert windows[..|windows|] == windows;
    }

    /** The last `limit` windows of a container; the source rejects a negative limit. */
    method FindByContainer(c: ContainerId, limit: int) returns (found: Option<seq<Window>>)
      ensures found.None? <==> limit < 0
      ensures found.Some? ==> var mine, n := OfContainer(windows, c), |found.value|;
                              n == (if |mine| < limit then |mine| else limit) && found.value == mine[|mine| - n..]
    {
      var filtered := Filter(c);
      var start := if |filtered| - limit < 0 then 0 else |filtered| - limit;
      if start > |filtered| {
        return None;
      }
      found := Some(filtered[start..]);
    }

    method LatestOf(c: ContainerId) returns (w: Option<Window>)
      ensures w == Latest(windows, c)
    {
      var filtered := Filter(c);
      if filtered == [] {
        return None;
      }
      w := Some(filtered[|filtered| - 1]);
    }
  }

  class TriageResultRepository {
    var results: seq<TriageResult>

    constructor ()
      ensures results == []
    {
      results := [];
    }

    method Save(result: TriageResult)
      modifies this
      ensures results == old(results) + [result]
    {
      results := results + [result];
    }

    method LatestForWindowId(windowId: nat) returns (r: Option<TriageResult>)
      ensures r == LatestForWindow(results, windowId)
    {
      r := None;
      for i := 0 to |results|
        invariant r == LatestForWindow(results[..i], windowId)
      {
        assert results[..i + 1][..i] == results[..i];
        if results[i].windowId == windowId {
          r := Some(results[i]);
        }
      }
      assert results[..|results|] == results;
    }
  }

  // ---- one request ----

  /** A request: what its payload and the ports answer, and how many of its six updates it has made. */
  datatype Request = Request(containerId: ContainerId, score: Score, context: Option<ChangeContext>, verdict: Verdict, explanation: Explanation, pc: nat)

  const DONE: nat := 6

  function StatusOf(v: Verdict): Status {
    match v
    case Threat => StatusThreat
    case Safe => StatusSafe
    case Other => Unknown
  }

  function PendingWindow(id: nat, r: Request): Window {
    Window(id, r.containerId, r.score.score, r.score.anomalous, Pending, None)
  }

  function TriagedWindow(id: nat, r: Request): Window {
    Window(id, r.containerId, r.score.score, r.score.anomalous, StatusOf(r.verdict), Some(id))
  }

  function ResultOf(id: nat, r: Request): TriageResult {
    TriageResult(id, r.containerId, id, r.verdict, r.explanation)
  }

  /** The request's next update. */
  function Update(s: Store, id: nat, r: Request): Store {
    match r.pc
    case 0 => s.(windows := RemoveId(s.windows, id))
    case 1 => s.(windows := s.windows + [PendingWindow(id, r)])
    case 2 => s.(triages := s.triages + [ResultOf(id, r)])
    case 3 => s.(windows := RemoveId(s.windows, id))
    case 4 => s.(windows := s.windows + [TriagedWindow(id, r)])
    case 5 => if GeneratePolicy(r.containerId, r.verdict).Some?
              then s.(policies := s.policies + [StoredPolicy(id, r.containerId)]) else s
    case _ => s
  }

  /** All the request's remaining updates, with nothing in between. */
  function Serve(s: Store, id: nat, r: Request): Store
    decreases DONE - r.pc
  {
    if r.pc >= DONE then s else Serve(Update(s, id, r), id, r.(pc := r.pc + 1))
  }

  class AgentWindowController {
    const windowRepository: AnomalyWindowRepository
    const triageResultRepository: TriageResultRepository
    var policies: seq<StoredPolicy>
    var containers: set<ContainerId>

    constructor (windowRepository: AnomalyWindowRepository, triageResultRepository: TriageResultRepository)
      ensures this.windowRepository == windowRepository && this.triageResultRepository == triageResultRepository
      ensures policies == [] && containers == {}
    {
      this.windowRepository, this.triageResultRepository := windowRepository, triageResultRepository;
      policies, containers := [], {};
    }

    function CurrentStore(): Store
      reads this, windowRepository, triageResultRepository
    {
      Store(windowRepository.windows, triageResultRepository.results, policies)
    }

    method EnsureContainerRegistered(c: ContainerId)
      modifies this
      ensures containers == old(containers) + {c} && policies == old(policies)
    {
      if c !in containers {
        containers := containers + {c};
      }
    }

    /** A request served alone makes exactly the six updates, in order; triage itself sees the pending window. */
    method IngestWindow(id: nat, c: ContainerId, score: Score, context: Option<ChangeContext>) returns (status: string)
      modifies this, windowRepository, triageResultRepository
      ensures var finding := TriageWithHeuristics(score, Some(AttachSummary(context)));
              CurrentStore() == Serve(old(CurrentStore()), id, Request(c, score, context, finding.verdict, finding.explanation, 0))
      ensures containers == old(containers) + {c}
      ensures status == if score.anomalous then "anomalous" else "accepted"
    {
      hide Serve, RemoveId, TriageWithHeuristics;
      EnsureContainerRegistered(c);
      var window := Window(id, c, score.score, score.anomalous, Pending, None);
      windowRepository.Save(window);
      var changeContext := AttachSummary(context);
      var finding := TriageWithHeuristics(score, Some(changeContext));
      var triage := TriageResult(id, c, id, finding.verdict, finding.explanation);
      triageResultRepository.Save(triage);
      var triagedWindow := window.(status := StatusOf(triage.verdict), triageId := Some(triage.id));
      windowRepository.Save(triagedWindow);
      var policy := GeneratePolicy(c, triage.verdict);
      if policy.Some? {
        policies := policies + [StoredPolicy(id, policy.value.containerId)];
      }
      status := if score.anomalous then "anomalous" else "accepted";
      ServeUnfolds(old(CurrentStore()), id, Request(c, score, context, finding.verdict, finding.explanation, 0));
    }
  }

  lemma ServeUnfolds(s: Store, id: nat, r: Request)
    requires r.pc == 0
    ensures var ws := RemoveId(RemoveId(s.windows, id) + [PendingWindow(id, r)], id) + [TriagedWindow(id, r)];
            Serve(s, id, r) == Store(ws, s.triages + [ResultOf(id, r)],
              if r.verdict == Threat then s.policies + [StoredPolicy(id, r.containerId)] else s.policies)
  {
    var s1 := Update(s, id, r);
    var s2 := Update(s1, id, r.(pc := 1));
    var s3 := Update(s2, id, r.(pc := 2));
    var s4 := Update(s3, id, r.(pc := 3));
    var s5 := Update(s4, id, r.(pc := 4));
    var s6 := Update(s5, id, r.(pc := 5));
    assert Serve(s6, id, r.(pc := 6)) == s6;
    assert Serve(s5, id, r.(pc := 5)) == s6;
    assert Serve(s4, id, r.(pc := 4)) == s6;
    assert Serve(s3, id, r.(pc := 3)) == s6;
    assert Serve(s2, id, r.(pc := 2)) == s6;
    assert Serve(s1, id, r.(pc := 1)) == s6;
  }

  // ---- what the container view shows ----

  datatype View = View(lastVerdict: Option<Status>, lastScore: Option<real>, lastExplanation: Option<Explanation>, lastPolicy: Option<StoredPolicy>)

  function LatestPolicy(ps: seq<StoredPolicy>, c: ContainerId): Option<StoredPolicy> {
    if ps == [] then None
    else if ps[|ps| - 1].containerId == c then Some(ps[|ps| - 1])
    else LatestPolicy(ps[..|ps| - 1], c)
  }

  /**
   * The view reads three times, others coming between: the container's latest window, its latest policy, and that
   * window's triage result.
   */
  function ViewAcross(first: Store, second: Store, third: Store, c: ContainerId): View {
    var policy := LatestPolicy(second.policies, c);
    match Latest(first.windows, c)
    case None => View(None, None, None, policy)
    case Some(w) =>
      var triage := LatestForWindow(third.triages, w.id);
      View(Some(w.status), Some(w.mlScore), match triage case Some(t) => Some(t.explanation) case None => None, policy)
  }

  // ---- what the queries return, by places in the lists ----

  /** `idx` are the places of `ws`, in order, at which `keep` holds. */
  predicate Selects(ws: seq<Window>, keep: Window -> bool, idx: seq<nat>) {
    && (forall i, j :: 0 <= i < j < |idx| ==> idx[i] < idx[j])
    && (forall i :: 0 <= i < |idx| ==> idx[i] < |ws|)
    && (forall k: nat :: k < |ws| ==> (k in idx <==> keep(ws[k])))
  }

  function Owned(c: ContainerId): Window -> bool { (w: Window) => w.containerId == c }
  function OtherThan(id: nat): Window -> bool { (w: Window) => w.id != id }

  function At(ws: seq<Window>, idx: seq<nat>): seq<Window>
    requires forall i :: 0 <= i < |idx| ==> idx[i] < |ws|
  {
    seq(|idx|, i requires 0 <= i < |idx| => ws[idx[i]])
  }

  lemma SelectsShorter(ws: seq<Window>, keep: Window -> bool, idx: seq<nat>)
    requires ws != [] && Selects(ws, keep, idx)
    ensures var n := |ws| - 1;
            if keep(ws[n]) then idx != [] && idx[|idx| - 1] == n && Selects(ws[..n], keep, idx[..|idx| - 1])
            else Selects(ws[..n], keep, idx)
  {
    var n := |ws| - 1;
    if keep(ws[n]) {
      assert n in idx;
      var m := |idx| - 1;
      assert idx[m] == n;
      forall k: nat | k < n ensures k in idx[..m] <==> keep(ws[..n][k]) {
        assert k in idx <==> k in idx[..m];
      }
    } else {
      assert n !in idx;
      forall i | 0 <= i < |idx| ensures idx[i] < n { assert idx[i] in idx; }
    }
  }

  /** The windows of a container are those at exactly the places that hold one of its, in the order of the list. */
  lemma {:induction false} OfContainerIs(ws: seq<Window>, c: ContainerId, idx: seq<nat>)
    requires Selects(ws, Owned(c), idx)
    ensures (forall i :: 0 <= i < |idx| ==> idx[i] < |ws|) && OfContainer(ws, c) == At(ws, idx)
  {
    hide Selects, At;
    SelectedInRange(ws, Owned(c), idx);
    if ws == [] {
      NothingAt(ws, idx);
    } else {
      var n := |ws| - 1;
      SelectsShorter(ws, Owned(c), idx);
      OfContainerIs(ws[..n], c, if Owned(c)(ws[n]) then idx[..|idx| - 1] else idx);
      AtShorter(ws, idx);
    }
  }

  /** Removing an id leaves the windows at exactly the other places, in order. */
  lemma {:induction false} RemoveIdIs(ws: seq<Window>, id: nat, idx: seq<nat>)
    requires Selects(ws, OtherThan(id), idx)
    ensures (forall i :: 0 <= i < |idx| ==> idx[i] < |ws|) && RemoveId(ws, id) == At(ws, idx)
  {
    hide Selects, At;
    SelectedInRange(ws, OtherThan(id), idx);
    if ws == [] {
      NothingAt(ws, idx);
    } else {
      var n := |ws| - 1;
      SelectsShorter(ws, OtherThan(id), idx);
      RemoveIdIs(ws[..n], id, if OtherThan(id)(ws[n]) then idx[..|idx| - 1] else idx);
      AtShorter(ws, idx);
    }
  }

  lemma AtShorter(ws: seq<Window>, idx: seq<nat>)
    requires ws != [] && forall i :: 0 <= i < |idx| ==> idx[i] < |ws|
    ensures var n, m := |ws| - 1, |idx| - 1;
            && (idx != [] && idx[m] == n && (forall i :: 0 <= i < m ==> idx[i] < n) ==> At(ws, idx) == At(ws[..n], idx[..m]) + [ws[n]])
            && ((forall i :: 0 <= i < |idx| ==> idx[i] < n) ==> At(ws, idx) == At(ws[..n], idx))
  {
  }

  lemma NothingAt(ws: seq<Window>, idx: seq<nat>)
    requires ws == [] && forall i :: 0 <= i < |idx| ==> idx[i] < |ws|
    ensures At(ws, idx) == []
  {
    NoMoreInRange(ws, idx);
  }

  lemma SelectedInRange(ws: seq<Window>, keep: Window -> bool, idx: seq<nat>)
    requires Selects(ws, keep, idx)
    ensures forall i :: 0 <= i < |idx| ==> idx[i] < |ws|
  {
  }

  lemma NoMoreInRange(ws: seq<Window>, idx: seq<nat>)
    requires forall i :: 0 <= i < |idx| ==> idx[i] < |ws|
    ensures ws == [] ==> idx == []
  {
    if idx != [] && idx[0] < |ws| { }
  }

  /** The latest window, result and policy are each at the last place that holds one. */
  lemma {:induction false} LatestIs(ws: seq<Window>, c: ContainerId)
    ensures match Latest(ws, c)
            case Some(w) => exists k :: 0 <= k < |ws| && ws[k] == w && w.containerId == c && forall j :: k < j < |ws| ==> ws[j].containerId != c
            case None => forall w <- ws :: w.containerId != c
  {
    if ws != [] {
      var n := |ws| - 1;
      LatestIs(ws[..n], c);
      assert OfContainer(ws[..n], c) + [] == OfContainer(ws[..n], c);
      if ws[n].containerId != c && Latest(ws, c).Some? {
        var k :| 0 <= k < n && ws[..n][k] == Latest(ws, c).value && forall j :: k < j < n ==> ws[..n][j].containerId != c;
        assert ws[k] == Latest(ws, c).value;
        forall j | k < j < |ws| ensures ws[j].containerId != c { assert j < n ==> ws[..n][j] == ws[j]; }
      }
      if ws[n].containerId != c && Latest(ws, c).None? {
        forall w | w in ws ensures w.containerId != c { assert w in ws[..n] || w == ws[n]; }
      }
    }
  }

  lemma {:induction false} LatestResultIs(ts: seq<TriageResult>, windowId: nat)
    ensures match LatestForWindow(ts, windowId)
            case Some(t) => exists k :: 0 <= k < |ts| && ts[k] == t && t.windowId == windowId && forall j :: k < j < |ts| ==> ts[j].windowId != windowId
            case None => forall i :: 0 <= i < |ts| ==> ts[i].windowId != windowId
  {
    if ts != [] && ts[|ts| - 1].windowId != windowId {
      var n := |ts| - 1;
      LatestResultIs(ts[..n], windowId);
      if LatestForWindow(ts, windowId).Some? {
        var t := LatestForWindow(ts, windowId).value;
        var k :| 0 <= k < n && ts[..n][k] == t && forall j :: k < j < n ==> ts[..n][j].windowId != windowId;
        assert ts[k] == t;
        forall j | k < j < |ts| ensures ts[j].windowId != windowId { assert j < n ==> ts[..n][j] == ts[j]; }
      } else {
        forall i | 0 <= i < |ts| ensures ts[i].windowId != windowId { assert i < n ==> ts[..n][i] == ts[i]; }
      }
    }
  }

  lemma {:induction false} LatestPolicyIs(ps: seq<StoredPolicy>, c: ContainerId)
    ensures match LatestPolicy(ps, c)
            case Some(p) => exists k :: 0 <= k < |ps| && ps[k] == p && p.containerId == c && forall j :: k < j < |ps| ==> ps[j].containerId != c
            case None => forall i :: 0 <= i < |ps| ==> ps[i].containerId != c
  {
    if ps != [] && ps[|ps| - 1].containerId != c {
      var n := |ps| - 1;
      LatestPolicyIs(ps[..n], c);
      if LatestPolicy(ps, c).Some? {
        var p := LatestPolicy(ps, c).value;
        var k :| 0 <= k < n && ps[..n][k] == p && forall j :: k < j < n ==> ps[..n][j].containerId != c;
        assert ps[k] == p;
        forall j | k < j < |ps| ensures ps[j].containerId != c { assert j < n ==> ps[..n][j] == ps[j]; }
      } else {
        forall i | 0 <= i < |ps| ensures ps[i].containerId != c { assert i < n ==> ps[..n][i] == ps[i]; }
      }
    }
  }
}
