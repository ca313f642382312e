/** Any number of ingest requests, interleaved update by update. */
module ConcurrentIngest {
  import opened Common
  import opened Trace
  import opened Entropy
  import opened Features
  import opened Scoring
  import opened Triage
  import opened Ingest

  /** A request arrives and gets the next number, or a numbered one makes its next update. */
  datatype Action =
    | Arrive(containerId: ContainerId, score: Score, context: Option<ChangeContext>, verdict: Verdict, explanation: Explanation)
    | Advance(id: nat)

  datatype System = System(store: Store, requests: seq<Request>)

  function Act(y: System, a: Action): System {
    match a
    case Arrive(c, score, context, verdict, explanation) =>
      y.(requests := y.requests + [Request(c, score, context, verdict, explanation, 0)])
    case Advance(id) =>
      if id >= |y.requests| || y.requests[id].pc >= DONE then y
      else
        var r := y.requests[id];
        System(Update(y.store, id, r), y.requests[id := r.(pc := r.pc + 1)])
  }

  function Play(actions: seq<Action>): System {
    if actions == [] then System(EMPTY, []) else Act(Play(actions[..|actions| - 1]), actions[|actions| - 1])
  }

  // ---- lists with distinct ids ----

  predicate Distinct(ws: seq<Window>) { forall i, j :: 0 <= i < j < |ws| ==> ws[i].id != ws[j].id }

  lemma {:induction false} RemoveIdMembers(ws: seq<Window>, id: nat)
    ensures forall w :: w in RemoveId(ws, id) <==> w in ws && w.id != id
  {
    if ws != [] {
      RemoveIdMembers(ws[..|ws| - 1], id);
      assert ws == ws[..|ws| - 1] + [ws[|ws| - 1]];
    }
  }

  lemma {:induction false} RemoveIdKeepsDistinct(ws: seq<Window>, id: nat)
    requires Distinct(ws)
    ensures Distinct(RemoveId(ws, id))
  {
    if ws != [] {
      var n := |ws| - 1;
      var kept := RemoveId(ws[..n], id);
      RemoveIdKeepsDistinct(ws[..n], id);
      RemoveIdMembers(ws[..n], id);
      forall i | 0 <= i < |kept| ensures kept[i].id != ws[n].id {
        assert kept[i] in ws[..n];
      }
    }
  }

  lemma RemoveIdKeepsOthers(ws: seq<Window>, id: nat)
    ensures forall w :: w in RemoveId(ws, id) <==> w in ws && w.id != id
    ensures Distinct(ws) ==> Distinct(RemoveId(ws, id))
  {
    RemoveIdMembers(ws, id);
    if Distinct(ws) { RemoveIdKeepsDistinct(ws, id); }
  }

  // ---- the invariant ----

  /** Between its first and last removals a request's window is there pending, after its second save triaged; else absent. */
  predicate WindowShown(pc: nat) { pc == 2 || pc == 3 || pc >= 5 }

  function ShownWindow(id: nat, r: Request): Window { if r.pc < 5 then PendingWindow(id, r) else TriagedWindow(id, r) }

  predicate WindowsMatch(y: System) {
    && Distinct(y.store.windows)
    && (forall w <- y.store.windows :: w.id < |y.requests| && WindowShown(y.requests[w.id].pc) && w == ShownWindow(w.id, y.requests[w.id]))
    && (forall id :: 0 <= id < |y.requests| && WindowShown(y.requests[id].pc) ==> ShownWindow(id, y.requests[id]) in y.store.windows)
  }

  predicate TriagesMatch(y: System) {
    && (forall t <- y.store.triages :: t.windowId < |y.requests| && y.requests[t.windowId].pc >= 3 && t == ResultOf(t.windowId, y.requests[t.windowId]))
    && (forall id :: 0 <= id < |y.requests| && y.requests[id].pc >= 3 ==> ResultOf(id, y.requests[id]) in y.store.triages)
  }

  predicate ProgramCounters(y: System) { forall id :: 0 <= id < |y.requests| ==> y.requests[id].pc <= DONE }

  predicate Consistent(y: System) { ProgramCounters(y) && WindowsMatch(y) && TriagesMatch(y) }

  /** What does not change while a request advances. */
  lemma SameWindows(id: nat, r: Request, pc: nat)
    ensures PendingWindow(id, r) == PendingWindow(id, r.(pc := pc)) && TriagedWindow(id, r) == TriagedWindow(id, r.(pc := pc))
    ensures ResultOf(id, r) == ResultOf(id, r.(pc := pc))
  {
  }

  lemma RemovalKeepsMatch(y: System, id: nat)
    requires Consistent(y) && id < |y.requests| && y.requests[id].pc in {0, 3}
    ensures WindowsMatch(Act(y, Advance(id)))
  {
    var after := Act(y, Advance(id));
    RemoveIdKeepsOthers(y.store.windows, id);
    forall k | 0 <= k < |after.requests| && WindowShown(after.requests[k].pc)
      ensures ShownWindow(k, after.requests[k]) in after.store.windows
    {
      assert k != id && after.requests[k] == y.requests[k];
    }
  }

  lemma AdditionKeepsMatch(y: System, id: nat)
    requires Consistent(y) && id < |y.requests| && y.requests[id].pc in {1, 4}
    ensures WindowsMatch(Act(y, Advance(id)))
  {
    var after, r := Act(y, Advance(id)), y.requests[id];
    var added := if r.pc == 1 then PendingWindow(id, r) else TriagedWindow(id, r);
    SameWindows(id, r, r.pc + 1);
    assert after.store.windows == y.store.windows + [added];
    forall i | 0 <= i < |y.store.windows| ensures y.store.windows[i].id != id {
      assert y.store.windows[i] in y.store.windows;
    }
  }

  lemma OtherUpdatesKeepWindows(y: System, id: nat)
    requires Consistent(y) && id < |y.requests| && y.requests[id].pc in {2, 5}
    ensures WindowsMatch(Act(y, Advance(id)))
  {
    var after, r := Act(y, Advance(id)), y.requests[id];
    SameWindows(id, r, r.pc + 1);
    assert after.store.windows == y.store.windows;
    forall k | 0 <= k < |after.requests| && WindowShown(after.requests[k].pc)
      ensures ShownWindow(k, after.requests[k]) in after.store.windows
    {
      assert ShownWindow(k, after.requests[k]) == ShownWindow(k, y.requests[k]);
    }
  }

  lemma UpdatesKeepTriages(y: System, id: nat)
    requires Consistent(y) && id < |y.requests| && y.requests[id].pc < DONE
    ensures TriagesMatch(Act(y, Advance(id)))
  {
    var after, r := Act(y, Advance(id)), y.requests[id];
    SameWindows(id, r, r.pc + 1);
    var ts := after.store.triages;
    assert ts == if r.pc == 2 then y.store.triages + [ResultOf(id, r)] else y.store.triages;
    forall k | 0 <= k < |after.requests| && after.requests[k].pc >= 3
      ensures ResultOf(k, after.requests[k]) in ts
    {
      assert ResultOf(k, after.requests[k]) == ResultOf(k, y.requests[k]);
    }
  }

  lemma ArrivalKeepsConsistent(y: System, a: Action)
    requires Consistent(y) && a.Arrive?
    ensures Consistent(Act(y, a))
  {
    var after := Act(y, a);
    assert forall i :: 0 <= i < |y.requests| ==> after.requests[i] == y.requests[i];
  }

  lemma AdvanceKeepsConsistent(y: System, id: nat)
    requires Consistent(y) && id < |y.requests| && y.requests[id].pc < DONE
    ensures Consistent(Act(y, Advance(id)))
  {
    hide WindowsMatch, TriagesMatch, Update;
    UpdatesKeepTriages(y, id);
    if y.requests[id].pc in {0, 3} { RemovalKeepsMatch(y, id); }
    else if y.requests[id].pc in {1, 4} { AdditionKeepsMatch(y, id); }
    else { OtherUpdatesKeepWindows(y, id); }
  }

  lemma ActKeepsConsistent(y: System, a: Action)
    requires Consistent(y)
    ensures Consistent(Act(y, a))
  {
    hide WindowsMatch, TriagesMatch, Update;
    match a
    case Arrive(_, _, _, _, _) => ArrivalKeepsConsistent(y, a);
    case Advance(id) =>
      if id < |y.requests| && y.requests[id].pc < DONE { AdvanceKeepsConsistent(y, id); }
  }

  /**
   * Every interleaving. At every moment the window store holds at most one entry an id, each entry is exactly
   * what its request has saved so far, and so is each triage result.
   */
  lemma {:induction false} AlwaysConsistent(actions: seq<Action>)
    ensures Consistent(Play(actions))
  {
    if actions != [] {
      AlwaysConsistent(actions[..|actions| - 1]);
      ActKeepsConsistent(Play(actions[..|actions| - 1]), actions[|actions| - 1]);
    }
  }

  /** A finished request's window is stored, triaged, and names a stored triage result for that very window. */
  lemma FinishedIsTriaged(actions: seq<Action>, id: nat)
    requires id < |Play(actions).requests| && Play(actions).requests[id].pc == DONE
    ensures var y := Play(actions); var w := TriagedWindow(id, y.requests[id]);
            && w in y.store.windows && w.status != Pending
            && exists t <- y.store.triages :: Some(t.id) == w.triageId && t.windowId == id && StatusOf(t.verdict) == w.status
  {
    AlwaysConsistent(actions);
    var y := Play(actions);
    assert ResultOf(id, y.requests[id]) in y.store.triages;
  }

  /** What any request has stored so far: its own container, score and verdict of the model, and its result once it has one. */
  lemma StoredWindowIs(actions: seq<Action>, w: Window)
    requires w in Play(actions).store.windows
    ensures w.id < |Play(actions).requests|
    ensures var r := Play(actions).requests[w.id];
            && w.containerId == r.containerId && w.mlScore == r.score.score && w.anomalous == r.score.anomalous
            && (r.pc < 5 ==> w.status == Pending && w.triageId == None)
            && (r.pc >= 5 ==> w.status != Pending && w.triageId == Some(w.id))
  {
    hide Play;
    AlwaysConsistent(actions);
  }

  /** And any result and policy: they are of the window of the same number. */
  lemma StoredResultIs(actions: seq<Action>, t: TriageResult)
    requires t in Play(actions).store.triages
    ensures t.windowId < |Play(actions).requests|
    ensures var r := Play(actions).requests[t.windowId];
            t.id == t.windowId && t.containerId == r.containerId && t.verdict == r.verdict && t.explanation == r.explanation
  {
    hide Play;
    AlwaysConsistent(actions);
  }

  /** What a finished request has stored, status by status. */
  lemma FinishedStatus(actions: seq<Action>, w: Window)
    requires w in Play(actions).store.windows && w.id < |Play(actions).requests| && Play(actions).requests[w.id].pc == DONE
    ensures var r := Play(actions).requests[w.id];
            && (w.status == StatusThreat <==> r.verdict == Threat)
            && (w.status == StatusSafe <==> r.verdict == Safe)
            && (w.status == Unknown <==> r.verdict != Threat && r.verdict != Safe)
            && w.containerId == r.containerId && w.mlScore == r.score.score && w.anomalous == r.score.anomalous
  {
    hide Play;
    AlwaysConsistent(actions);
  }

  // ---- one policy for each threat ----

  function ThreatWindows(ws: seq<Window>, c: ContainerId): nat {
    if ws == [] then 0
    else ThreatWindows(ws[..|ws| - 1], c) + Bit(ws[|ws| - 1].containerId == c && ws[|ws| - 1].status == StatusThreat)
  }

  function Policies(ps: seq<StoredPolicy>, c: ContainerId): nat {
    if ps == [] then 0 else Policies(ps[..|ps| - 1], c) + Bit(ps[|ps| - 1].containerId == c)
  }

  /** Requests of `c` found a threat that have made their first `done` updates. */
  function Threats(rs: seq<Request>, c: ContainerId, done: nat): nat {
    if rs == [] then 0 else Threats(rs[..|rs| - 1], c, done) + Bit(IsThreat(rs[|rs| - 1], c, done))
  }

  predicate IsThreat(r: Request, c: ContainerId, done: nat) { r.containerId == c && r.verdict == Threat && r.pc >= done }

  lemma {:induction false} ThreatsAfter(rs: seq<Request>, i: nat, r: Request, c: ContainerId, done: nat)
    requires i < |rs|
    ensures Threats(rs[i := r], c, done) == Threats(rs, c, done) - Bit(IsThreat(rs[i], c, done)) + Bit(IsThreat(r, c, done))
  {
    var n := |rs| - 1;
    if i < n {
      ThreatsAfter(rs[..n], i, r, c, done);
      assert rs[i := r][..n] == rs[..n][i := r];
    } else {
      assert rs[i := r][..n] == rs[..n];
    }
  }

  /** Requests that have stored a threat window and are about to store its policy. */
  function OwedPolicies(rs: seq<Request>, c: ContainerId): nat {
    if rs == [] then 0 else OwedPolicies(rs[..|rs| - 1], c) + Bit(Owes(rs[|rs| - 1], c))
  }

  predicate Owes(r: Request, c: ContainerId) { r.containerId == c && r.verdict == Threat && r.pc == 5 }

  lemma {:induction false} OwedAreBetween(rs: seq<Request>, c: ContainerId)
    ensures Threats(rs, c, 5) == Threats(rs, c, 6) + OwedPolicies(rs, c)
  {
    if rs != [] { OwedAreBetween(rs[..|rs| - 1], c); }
  }

  lemma ThreatWindowsExtend(ws: seq<Window>, w: Window, c: ContainerId)
    ensures ThreatWindows(ws + [w], c) == ThreatWindows(ws, c) + Bit(w.containerId == c && w.status == StatusThreat)
  {
    assert (ws + [w])[..|ws|] == ws;
  }

  lemma {:induction false} RemovingNoThreat(ws: seq<Window>, id: nat, c: ContainerId)
    requires forall w <- ws :: w.id == id ==> w.status != StatusThreat
    ensures ThreatWindows(RemoveId(ws, id), c) == ThreatWindows(ws, c)
  {
    if ws != [] {
      var n := |ws| - 1;
      RemovingNoThreat(ws[..n], id, c);
      var kept := RemoveId(ws[..n], id);
      ThreatWindowsExtend(kept, ws[n], c);
      assert kept + [] == kept && ws[n] in ws;
    }
  }

  /** A container's threat windows are those of its threat requests from their fifth update on, its policies those from the sixth. */
  predicate Tallied(y: System, c: ContainerId) {
    && ThreatWindows(y.store.windows, c) == Threats(y.requests, c, 5)
    && Policies(y.store.policies, c) == Threats(y.requests, c, 6)
  }

  /** Only the second save adds a threat window, and no removal takes one away. */
  lemma ThreatWindowsChange(y: System, id: nat, c: ContainerId)
    requires Consistent(y) && id < |y.requests| && y.requests[id].pc < DONE
    ensures var r := y.requests[id];
            ThreatWindows(Update(y.store, id, r).windows, c) ==
            ThreatWindows(y.store.windows, c) + Bit(r.pc == 4 && r.containerId == c && r.verdict == Threat)
  {
    hide ThreatWindows;
    var r, ws := y.requests[id], y.store.windows;
    if r.pc in {0, 3} {
      NoThreatYet(y, id);
      RemovingNoThreat(ws, id, c);
    } else if r.pc == 1 {
      ThreatWindowsExtend(ws, PendingWindow(id, r), c);
    } else if r.pc == 4 {
      ThreatWindowsExtend(ws, TriagedWindow(id, r), c);
    }
  }

  lemma PoliciesChange(s: Store, id: nat, r: Request, c: ContainerId)
    ensures Policies(Update(s, id, r).policies, c) ==
            Policies(s.policies, c) + Bit(r.pc == 5 && r.containerId == c && r.verdict == Threat)
  {
    assert (s.policies + [StoredPolicy(id, r.containerId)])[..|s.policies|] == s.policies;
  }

  lemma AdvanceKeepsTally(y: System, id: nat, c: ContainerId)
    requires Consistent(y) && Tallied(y, c) && id < |y.requests| && y.requests[id].pc < DONE
    ensures Tallied(Act(y, Advance(id)), c)
  {
    hide Consistent, Update, ThreatWindows, Policies, Threats;
    var r := y.requests[id];
    ThreatsAfter(y.requests, id, r.(pc := r.pc + 1), c, 5);
    ThreatsAfter(y.requests, id, r.(pc := r.pc + 1), c, 6);
    ThreatWindowsChange(y, id, c);
    PoliciesChange(y.store, id, r, c);
  }

  lemma NoThreatYet(y: System, id: nat)
    requires Consistent(y) && id < |y.requests| && y.requests[id].pc < 5
    ensures forall w <- y.store.windows :: w.id == id ==> w.status != StatusThreat
  {
  }

  /** At every moment of every interleaving the stores hold exactly the windows and policies of the threats found so far. */
  lemma {:induction false} AlwaysTallied(actions: seq<Action>, c: ContainerId)
    ensures Tallied(Play(actions), c)
  {
    if actions != [] {
      var y, a := Play(actions[..|actions| - 1]), actions[|actions| - 1];
      AlwaysTallied(actions[..|actions| - 1], c);
      AlwaysConsistent(actions[..|actions| - 1]);
      match a
      case Arrive(_, _, _, _, _) =>
        assert Act(y, a).requests[..|y.requests|] == y.requests;
      case Advance(id) =>
        if id < |y.requests| && y.requests[id].pc < DONE {
          AdvanceKeepsTally(y, id, c);
        }
    }
  }

  /** So its policies and those about to be stored are as many as its threat windows. */
  lemma AlwaysBalanced(actions: seq<Action>, c: ContainerId)
    ensures var y := Play(actions);
            Policies(y.store.policies, c) + OwedPolicies(y.requests, c) == ThreatWindows(y.store.windows, c)
  {
    AlwaysTallied(actions, c);
    OwedAreBetween(Play(actions).requests, c);
  }

  predicate Quiescent(y: System) { forall id :: 0 <= id < |y.requests| ==> y.requests[id].pc == DONE }

  lemma {:induction false} NothingOwed(rs: seq<Request>, c: ContainerId)
    requires forall i :: 0 <= i < |rs| ==> rs[i].pc == DONE
    ensures OwedPolicies(rs, c) == 0
  {
    if rs != [] { NothingOwed(rs[..|rs| - 1], c); }
  }

  /** At quiescence, whatever the interleaving was: as many policies for a container as threat windows. */
  lemma OnePolicyPerThreat(actions: seq<Action>, c: ContainerId)
    requires Quiescent(Play(actions))
    ensures Policies(Play(actions).store.policies, c) == ThreatWindows(Play(actions).store.windows, c)
  {
    AlwaysBalanced(actions, c);
    NothingOwed(Play(actions).requests, c);
  }

  // ---- enforcement ----

  /** The score comes from the in-process engine, or from the remote one with this threshold. */
  ghost predicate FromAnEngine(score: Score, threshold: real) {
    || (exists rs: seq<Record>, ln, baseline :: IsLn(ln) && |rs| <= 0x7fff_ffff && score == ScoreOf(JavaVector(rs, ln), baseline))
    || (exists fitted, sample :: -1.0 <= sample <= 0.0 && score == RemoteScore(fitted, sample, threshold))
  }

  /** The request's verdict is the heuristic triage of its score in its context. */
  predicate Triaged(r: Request) { r.verdict == TriageWithHeuristics(r.score, Some(AttachSummary(r.context))).verdict }

  /** A window the heuristics call a threat, by its score and context. */
  predicate IsThreatening(r: Request) { r.score.anomalous && !IsDeployed(r.context) }

  predicate ToEnforce(r: Request, c: ContainerId) { r.containerId == c && IsThreatening(r) }

  /** Every request so far was scored by one of the engines and triaged by the heuristics. */
  ghost predicate AllByEngines(y: System, threshold: real) {
    forall i :: 0 <= i < |y.requests| ==> FromAnEngine(y.requests[i].score, threshold) && Triaged(y.requests[i])
  }

  function EnforcedRequests(rs: seq<Request>, c: ContainerId): nat {
    if rs == [] then 0 else EnforcedRequests(rs[..|rs| - 1], c) + Bit(ToEnforce(rs[|rs| - 1], c))
  }

  lemma EngineScoresAreEnforced(r: Request, threshold: real)
    requires FromAnEngine(r.score, threshold) && threshold <= -0.5 && Triaged(r)
    ensures r.verdict == Threat <==> r.score.anomalous && !IsDeployed(r.context)
  {
    hide IsLn, JavaVector, ScoreOf, TriageWithHeuristics;
    if exists fitted, sample :: -1.0 <= sample <= 0.0 && r.score == RemoteScore(fitted, sample, threshold) {
      RemoteEngineEnforcesIff(threshold);
      var fitted, sample :| -1.0 <= sample <= 0.0 && r.score == RemoteScore(fitted, sample, threshold);
      assert Enforced(RemoteScore(fitted, sample, threshold), r.context, r.containerId);
    } else {
      var rs: seq<Record>, ln, baseline :| IsLn(ln) && |rs| <= 0x7fff_ffff && r.score == ScoreOf(JavaVector(rs, ln), baseline);
      LocalEngineEnforces(rs, ln, baseline, r.context, r.containerId);
    }
  }

  lemma {:induction false} ThreatsAreEnforced(rs: seq<Request>, c: ContainerId, threshold: real)
    requires threshold <= -0.5
    requires forall i :: 0 <= i < |rs| ==> FromAnEngine(rs[i].score, threshold) && Triaged(rs[i]) && rs[i].pc == DONE
    ensures Threats(rs, c, 6) == EnforcedRequests(rs, c)
  {
    hide FromAnEngine, Triaged;
    if rs != [] {
      ThreatsAreEnforced(rs[..|rs| - 1], c, threshold);
      EngineScoresAreEnforced(rs[|rs| - 1], threshold);
    }
  }

  /**
   * From scores to policies under concurrency. Whichever engines scored the windows, with a remote threshold of at
   * most -0.5, and however the requests were interleaved: once all are served, a container has exactly as many
   * policies, and as many threat windows, as it had anomalous windows without a dated deployment.
   */
  lemma EnforcedOnceEach(actions: seq<Action>, c: ContainerId, threshold: real)
    requires Quiescent(Play(actions)) && AllByEngines(Play(actions), threshold) && threshold <= -0.5
    ensures var y := Play(actions);
            && Policies(y.store.policies, c) == EnforcedRequests(y.requests, c)
            && ThreatWindows(y.store.windows, c) == EnforcedRequests(y.requests, c)
  {
    hide FromAnEngine, Triaged, Play;
    OnePolicyPerThreat(actions, c);
    AlwaysTallied(actions, c);
    ThreatsAreEnforced(Play(actions).requests, c, threshold);
  }

  // ---- the view ----

  lemma {:induction false} LatestIsStored(ws: seq<Window>, c: ContainerId)
    ensures forall w <- OfContainer(ws, c) :: w in ws && w.containerId == c
    ensures Latest(ws, c) == None <==> forall w <- ws :: w.containerId != c
  {
    if ws != [] {
      LatestIsStored(ws[..|ws| - 1], c);
      assert ws == ws[..|ws| - 1] + [ws[|ws| - 1]];
      assert forall w <- OfContainer(ws[..|ws| - 1], c) :: w in ws;
    }
  }

  lemma {:induction false} LatestTriageIsStored(ts: seq<TriageResult>, windowId: nat)
    ensures match LatestForWindow(ts, windowId)
            case Some(t) => t in ts && t.windowId == windowId
            case None => forall t <- ts :: t.windowId != windowId
  {
    if ts != [] {
      LatestTriageIsStored(ts[..|ts| - 1], windowId);
      assert ts == ts[..|ts| - 1] + [ts[|ts| - 1]];
    }
  }

  lemma ActKeepsRequest(y: System, a: Action, id: nat)
    requires id < |y.requests|
    ensures id < |Act(y, a).requests|
    ensures var r, t := y.requests[id], Act(y, a).requests[id]; r.pc <= t.pc && t == r.(pc := t.pc)
  {
  }

  lemma {:induction false} RequestsPersist(actions: seq<Action>, k: nat, id: nat)
    requires k <= |actions| && id < |Play(actions[..k]).requests|
    ensures id < |Play(actions).requests|
    ensures var r, t := Play(actions[..k]).requests[id], Play(actions).requests[id]; r.pc <= t.pc && t == r.(pc := t.pc)
  {
    hide Act;
    if k == |actions| {
      assert actions[..k] == actions;
    } else {
      var n := |actions| - 1;
      assert actions[..n][..k] == actions[..k];
      RequestsPersist(actions[..n], k, id);
      ActKeepsRequest(Play(actions[..n]), actions[n], id);
    }
  }

  /** The parts of a view that come from one request: pending or decided, its score, and its explanation once decided. */
  predicate ShowsRequest(v: View, r: Request) {
    && v.lastScore == Some(r.score.score)
    && (v.lastVerdict == Some(Pending) || v.lastVerdict == Some(StatusOf(r.verdict)))
    && (v.lastExplanation == None || v.lastExplanation == Some(r.explanation))
    && (v.lastVerdict != Some(Pending) ==> v.lastExplanation == Some(r.explanation))
  }

  // ---- which request that is ----

  /** The action makes a request of `c` its update number `pc`. */
  predicate Updates(y: System, a: Action, pc: nat, c: ContainerId) {
    a.Advance? && a.id < |y.requests| && y.requests[a.id].pc == pc && y.requests[a.id].containerId == c
  }

  /** The request of `c` that made its second save last. */
  function LastDecided(actions: seq<Action>, c: ContainerId): Option<nat> {
    if actions == [] then None
    else
      var n := |actions| - 1;
      if Updates(Play(actions[..n]), actions[n], 4, c) then Some(actions[n].id) else LastDecided(actions[..n], c)
  }

  /** The request of `c` that stored its policy last. */
  function LastEnforced(actions: seq<Action>, c: ContainerId): Option<nat> {
    if actions == [] then None
    else
      var n := |actions| - 1;
      if Updates(Play(actions[..n]), actions[n], 5, c) && Play(actions[..n]).requests[actions[n].id].verdict == Threat
      then Some(actions[n].id)
      else LastEnforced(actions[..n], c)
  }

  /** The last window of `c` in the list that is no longer pending. */
  function DecidedWindow(ws: seq<Window>, c: ContainerId): Option<Window> {
    if ws == [] then None
    else if ws[|ws| - 1].containerId == c && ws[|ws| - 1].status != Pending then Some(ws[|ws| - 1])
    else DecidedWindow(ws[..|ws| - 1], c)
  }

  lemma DecidedWindowExtends(ws: seq<Window>, w: Window, c: ContainerId)
    ensures DecidedWindow(ws + [w], c) == if w.containerId == c && w.status != Pending then Some(w) else DecidedWindow(ws, c)
  {
    assert (ws + [w])[..|ws|] == ws;
  }

  lemma {:induction false} RemovingPending(ws: seq<Window>, id: nat, c: ContainerId)
    requires forall w <- ws :: w.id == id ==> w.status == Pending
    ensures DecidedWindow(RemoveId(ws, id), c) == DecidedWindow(ws, c)
  {
    hide DecidedWindow;
    if ws != [] {
      var n := |ws| - 1;
      RemovingPending(ws[..n], id, c);
      assert ws == ws[..n] + [ws[n]] && ws[n] in ws;
      DecidedWindowExtends(ws[..n], ws[n], c);
      DecidedWindowExtends(RemoveId(ws[..n], id), ws[n], c);
      assert RemoveId(ws[..n], id) + [] == RemoveId(ws[..n], id);
    } else {
      assert RemoveId(ws, id) == ws;
    }
  }

  lemma {:induction false} LatestIfDecided(ws: seq<Window>, c: ContainerId)
    ensures Latest(ws, c).Some? && Latest(ws, c).value.status != Pending ==> DecidedWindow(ws, c) == Latest(ws, c)
  {
    if ws != [] {
      var n := |ws| - 1;
      LatestIfDecided(ws[..n], c);
      assert OfContainer(ws[..n], c) + [] == OfContainer(ws[..n], c);
    }
  }

  /** The last decided window of `c` is that of the request whose second save came last; likewise for its policies. */
  predicate LatestAreLast(y: System, c: ContainerId, decided: Option<nat>, enforced: Option<nat>) {
    && (match decided
        case Some(id) => id < |y.requests| && y.requests[id].containerId == c && y.requests[id].pc >= 5
                         && DecidedWindow(y.store.windows, c) == Some(TriagedWindow(id, y.requests[id]))
        case None => DecidedWindow(y.store.windows, c) == None)
    && (match enforced
        case Some(id) => id < |y.requests| && y.requests[id].containerId == c && y.requests[id].verdict == Threat && y.requests[id].pc == DONE
                         && LatestPolicy(y.store.policies, c) == Some(StoredPolicy(id, c))
        case None => LatestPolicy(y.store.policies, c) == None)
  }

  lemma PendingUntilDecided(y: System, id: nat)
    requires Consistent(y) && id < |y.requests| && y.requests[id].pc < 5
    ensures forall w <- y.store.windows :: w.id == id ==> w.status == Pending
  {
  }

  lemma DecidedWindowChanges(y: System, id: nat, c: ContainerId)
    requires Consistent(y) && id < |y.requests| && y.requests[id].pc < DONE
    ensures var r := y.requests[id];
            DecidedWindow(Update(y.store, id, r).windows, c) ==
            if r.pc == 4 && r.containerId == c then Some(TriagedWindow(id, r)) else DecidedWindow(y.store.windows, c)
  {
    hide DecidedWindow, Consistent;
    var r, ws := y.requests[id], y.store.windows;
    if r.pc in {0, 3} {
      PendingUntilDecided(y, id);
      RemovingPending(ws, id, c);
    } else if r.pc == 1 {
      DecidedWindowExtends(ws, PendingWindow(id, r), c);
    } else if r.pc == 4 {
      DecidedWindowExtends(ws, TriagedWindow(id, r), c);
    }
  }

  lemma LatestPolicyChanges(s: Store, id: nat, r: Request, c: ContainerId)
    ensures LatestPolicy(Update(s, id, r).policies, c) ==
            if r.pc == 5 && r.verdict == Threat && r.containerId == c then Some(StoredPolicy(id, c)) else LatestPolicy(s.policies, c)
  {
    assert (s.policies + [StoredPolicy(id, r.containerId)])[..|s.policies|] == s.policies;
  }

  lemma AdvanceKeepsLatest(y: System, id: nat, c: ContainerId, decided: Option<nat>, enforced: Option<nat>)
    requires Consistent(y) && LatestAreLast(y, c, decided, enforced) && id < |y.requests| && y.requests[id].pc < DONE
    ensures var r := y.requests[id];
            LatestAreLast(Act(y, Advance(id)), c,
              if r.pc == 4 && r.containerId == c then Some(id) else decided,
              if r.pc == 5 && r.containerId == c && r.verdict == Threat then Some(id) else enforced)
  {
    hide Consistent, Update, DecidedWindow, LatestPolicy;
    DecidedWindowChanges(y, id, c);
    LatestPolicyChanges(y.store, id, y.requests[id], c);
  }

  /** At every moment of every interleaving. */
  lemma {:induction false} LatestAreAlwaysLast(actions: seq<Action>, c: ContainerId)
    ensures LatestAreLast(Play(actions), c, LastDecided(actions, c), LastEnforced(actions, c))
  {
    hide Update, DecidedWindow, LatestPolicy;
    if actions == [] {
      NothingDecided(c);
    } else {
      var n := |actions| - 1;
      var y, a := Play(actions[..n]), actions[n];
      LatestAreAlwaysLast(actions[..n], c);
      AlwaysConsistent(actions[..n]);
      if a.Advance? && a.id < |y.requests| && y.requests[a.id].pc < DONE {
        AdvanceKeepsLatest(y, a.id, c, LastDecided(actions[..n], c), LastEnforced(actions[..n], c));
      }
    }
  }

  lemma NothingDecided(c: ContainerId)
    ensures DecidedWindow(EMPTY.windows, c) == None && LatestPolicy(EMPTY.policies, c) == None
  {
  }

  /** The view has a verdict, and it is final. */
  predicate ShowsFinal(v: View) { v.lastVerdict.Some? && v.lastVerdict != Some(Pending) }

  /**
   * The view is of one window. Whatever happens before, after and between its reads, the verdict, score and
   * explanation it shows are those of one and the same request of the container; a final verdict is that of the
   * request whose second save came last before the first read; if that read is at a quiescent moment, the verdict is
   * final, and there is one for every container with a request.
   */
  lemma ViewIsOfOneWindow(actions: seq<Action>, k: nat, m: nat, c: ContainerId)
    requires k <= m <= |actions|
    ensures var y := Play(actions[..k]); var v := ViewAcross(y.store, Play(actions[..m]).store, Play(actions).store, c);
            && (v.lastVerdict.Some? ==> exists r <- y.requests :: r.containerId == c && ShowsRequest(v, r))
            && (ShowsFinal(v) ==> var last := LastDecided(actions[..k], c);
                                  last.Some? && last.value < |y.requests| && ShowsRequest(v, y.requests[last.value]))
            && (Quiescent(y) ==> (v.lastVerdict.Some? <==> exists r <- y.requests :: r.containerId == c) && v.lastVerdict != Some(Pending))
  {
    hide Play, Act, ShowsRequest, Update, DecidedWindow, LatestPolicy;
    var y, z := Play(actions[..k]), Play(actions);
    AlwaysConsistent(actions[..k]);
    AlwaysConsistent(actions);
    LatestIsStored(y.store.windows, c);
    LatestAreAlwaysLast(actions[..k], c);
    LatestIfDecided(y.store.windows, c);
    if Quiescent(y) { QuiescentShows(y, c); }
    if Latest(y.store.windows, c).Some? {
      var w := Latest(y.store.windows, c).value;
      assert w in OfContainer(y.store.windows, c);
      StoredWindowIsShown(y, w);
      RequestsPersist(actions, k, w.id);
      LatestTriageFits(z, w.id);
      assert ShowsRequest(ViewAcross(y.store, Play(actions[..m]).store, z.store, c), y.requests[w.id]) by {
        ViewShows(y, Play(actions[..m]).store, z, c, w);
      }
    }
  }

  /**
   * The policy beside it is that of the threat request of the container that stored its policy last before the
   * second read, so, with a final verdict, it is that of the window shown if and only if the same request was last in both.
   */
  lemma ViewPolicyIff(actions: seq<Action>, k: nat, m: nat, c: ContainerId)
    requires k <= m <= |actions|
    ensures var y, x := Play(actions[..k]), Play(actions[..m]);
            var v, enforced := ViewAcross(y.store, x.store, Play(actions).store, c), LastEnforced(actions[..m], c);
            && (v.lastPolicy.Some? <==> enforced.Some?)
            && (v.lastPolicy.Some? ==> enforced.value < |x.requests| && x.requests[enforced.value].verdict == Threat
                                       && v.lastPolicy == Some(StoredPolicy(enforced.value, c)))
            && (ShowsFinal(v) && v.lastPolicy.Some? ==>
                 (v.lastPolicy.value.id == Latest(y.store.windows, c).value.id <==> enforced == LastDecided(actions[..k], c)))
  {
    hide Play, Act, Update, DecidedWindow, LatestPolicy;
    LatestAreAlwaysLast(actions[..k], c);
    LatestAreAlwaysLast(actions[..m], c);
    LatestIfDecided(Play(actions[..k]).store.windows, c);
  }

  /**
   * End to end: with scores of either engine, the remote threshold at most -0.5, and heuristic triage, the stored window
   * of a finished request is a threat exactly if it was anomalous without a dated deployment, and safe otherwise.
   */
  lemma StoredStatusIsDue(actions: seq<Action>, w: Window, threshold: real)
    requires AllByEngines(Play(actions), threshold) && threshold <= -0.5
    requires w in Play(actions).store.windows && w.id < |Play(actions).requests| && Play(actions).requests[w.id].pc == DONE
    ensures w.status == if IsThreatening(Play(actions).requests[w.id]) then StatusThreat else StatusSafe
  {
    hide Play, FromAnEngine, Triaged;
    FinishedStatus(actions, w);
    EngineScoresAreEnforced(Play(actions).requests[w.id], threshold);
    HeuristicsDecide(Play(actions).requests[w.id]);
  }

  lemma HeuristicsDecide(r: Request)
    requires Triaged(r)
    ensures r.verdict == Threat || r.verdict == Safe
  {
  }

  /**
   * And so is what the container's view shows of it: at a quiescent moment, for every container with a request, the
   * status due to the one whose second save came last, with its score.
   */
  lemma ViewStatusIsDue(actions: seq<Action>, k: nat, m: nat, c: ContainerId, threshold: real)
    requires k <= m <= |actions| && Quiescent(Play(actions[..k])) && AllByEngines(Play(actions[..k]), threshold) && threshold <= -0.5
    requires exists r <- Play(actions[..k]).requests :: r.containerId == c
    ensures var y, last := Play(actions[..k]), LastDecided(actions[..k], c);
            var v := ViewAcross(y.store, Play(actions[..m]).store, Play(actions).store, c);
            && last.Some? && last.value < |y.requests| && y.requests[last.value].containerId == c
            && v.lastVerdict == Some(if IsThreatening(y.requests[last.value]) then StatusThreat else StatusSafe)
            && v.lastScore == Some(y.requests[last.value].score.score)
  {
    hide Play, ShowsRequest, FromAnEngine, Triaged, DecidedWindow, LatestPolicy, OfContainer;
    var y := Play(actions[..k]);
    ViewIsOfOneWindow(actions, k, m, c);
    LatestAreAlwaysLast(actions[..k], c);
    LatestIfDecided(y.store.windows, c);
    LatestIsStored(y.store.windows, c);
    AlwaysConsistent(actions[..k]);
    LatestIsIn(y.store.windows, c);
    StoredStatusIsDue(actions[..k], Latest(y.store.windows, c).value, threshold);
  }

  lemma LatestIsIn(ws: seq<Window>, c: ContainerId)
    ensures Latest(ws, c).Some? ==> Latest(ws, c).value in ws && Latest(ws, c).value.containerId == c
  {
    LatestIsStored(ws, c);
    if Latest(ws, c).Some? { assert Latest(ws, c).value in OfContainer(ws, c); }
  }

  lemma StoredWindowIsShown(y: System, w: Window)
    requires Consistent(y) && w in y.store.windows
    ensures w.id < |y.requests| && y.requests[w.id] in y.requests && w == ShownWindow(w.id, y.requests[w.id])
    ensures w.containerId == y.requests[w.id].containerId
    ensures Quiescent(y) ==> w.status != Pending
  {
  }

  lemma LatestTriageFits(z: System, id: nat)
    requires Consistent(z) && id < |z.requests|
    ensures LatestForWindow(z.store.triages, id) in {None, Some(ResultOf(id, z.requests[id]))}
    ensures z.requests[id].pc >= 3 ==> LatestForWindow(z.store.triages, id).Some?
  {
    LatestTriageIsStored(z.store.triages, id);
    if z.requests[id].pc >= 3 { assert ResultOf(id, z.requests[id]) in z.store.triages; }
  }

  lemma ViewShows(y: System, x: Store, z: System, c: ContainerId, w: Window)
    requires Latest(y.store.windows, c) == Some(w) && w.id < |y.requests| && w.id < |z.requests|
    requires w == ShownWindow(w.id, y.requests[w.id])
    requires y.requests[w.id].pc <= z.requests[w.id].pc && z.requests[w.id] == y.requests[w.id].(pc := z.requests[w.id].pc)
    requires LatestForWindow(z.store.triages, w.id) in {None, Some(ResultOf(w.id, z.requests[w.id]))}
    requires z.requests[w.id].pc >= 3 ==> LatestForWindow(z.store.triages, w.id).Some?
    ensures ShowsRequest(ViewAcross(y.store, x, z.store, c), y.requests[w.id])
  {
  }

  lemma QuiescentShows(y: System, c: ContainerId)
    requires Consistent(y) && Quiescent(y)
    ensures (exists r <- y.requests :: r.containerId == c) <==> exists w <- y.store.windows :: w.containerId == c
  {
    forall r | r in y.requests ensures exists w <- y.store.windows :: w.containerId == r.containerId {
      var id :| 0 <= id < |y.requests| && y.requests[id] == r;
      assert ShownWindow(id, r) in y.store.windows;
    }
    forall w | w in y.store.windows ensures exists r <- y.requests :: r.containerId == w.containerId {
      assert w.containerId == y.requests[w.id].containerId;
    }
  }

  /** Between the two halves of its second save a request's window is missing, though its triage is stored. */
  lemma WindowVanishesBriefly(c: ContainerId, score: Score, context: Option<ChangeContext>, explanation: Explanation)
    ensures var actions := [Arrive(c, score, context, Threat, explanation), Advance(0), Advance(0), Advance(0), Advance(0)];
            Play(actions).store.windows == [] && |Play(actions).store.triages| == 1
  {
    hide Play, Act;
    var arrive, r := Arrive(c, score, context, Threat, explanation), Request(c, score, context, Threat, explanation, 0);
    var a1 := [arrive];
    var a2 := a1 + [Advance(0)];
    var a3 := a2 + [Advance(0)];
    var a4 := a3 + [Advance(0)];
    NothingPlayed();
    assert [] + [arrive] == a1;
    PlayOneMore([], arrive);
    PlayOneMore(a1, Advance(0));
    PlayOneMore(a2, Advance(0));
    PlayOneMore(a3, Advance(0));
    PlayOneMore(a4, Advance(0));
    LoneRequest(r);
    assert a4 + [Advance(0)] == [arrive, Advance(0), Advance(0), Advance(0), Advance(0)];
  }

  /** The first updates of a request that is alone. */
  lemma LoneRequest(r: Request)
    requires r.pc == 0
    ensures var saved, result := [PendingWindow(0, r)], [ResultOf(0, r)];
            && Act(System(EMPTY, []), Arrive(r.containerId, r.score, r.context, r.verdict, r.explanation)) == System(EMPTY, [r])
            && Act(System(EMPTY, [r]), Advance(0)) == System(EMPTY, [r.(pc := 1)])
            && Act(System(EMPTY, [r.(pc := 1)]), Advance(0)) == System(Store(saved, [], []), [r.(pc := 2)])
            && Act(System(Store(saved, [], []), [r.(pc := 2)]), Advance(0)) == System(Store(saved, result, []), [r.(pc := 3)])
            && Act(System(Store(saved, result, []), [r.(pc := 3)]), Advance(0)) == System(Store([], result, []), [r.(pc := 4)])
  {
    assert [PendingWindow(0, r)][..0] == [];
    assert RemoveId([PendingWindow(0, r)], 0) == [];
  }

  lemma PlayOneMore(actions: seq<Action>, a: Action)
    ensures Play(actions + [a]) == Act(Play(actions), a)
  {
    assert (actions + [a])[..|actions|] == actions;
  }

  lemma NothingPlayed()
    ensures Play([]) == System(EMPTY, [])
  {
  }
}
