/** Training starts that overlap: while one waits for the agent, the server serves other requests. */
module ConcurrentTraining {
  import opened Common
  import opened Trace
  import T = Training

  datatype Progress = Waiting | Succeeded | Failed

  /** One start, and what has become of its request to the agent. */
  datatype Attempt = Attempt(containerId: ContainerId, progress: Progress)

  /** A start is in two steps, the second being the agent's answer or the exception instead of it. */
  datatype Action =
    | Begin(containerId: ContainerId, remote: Option<T.ModelMeta>, now: int)
    | Answer(id: nat, threw: bool)
    | Complete(containerId: ContainerId)
    | Query(containerId: ContainerId, remote: Option<T.ModelMeta>, now: int)

  /**
   * The server, the starts so far, and whose each entry of the registry is: the start's number, or none for an entry
   * cached from the ML service. No step reads the owners.
   */
  datatype System = System(server: T.Server, attempts: seq<Attempt>, owners: map<ContainerId, seq<Option<nat>>>)

  const START := System(T.INITIAL, [], map[])

  function EntriesOf(y: System, c: ContainerId): seq<T.ModelVersion> { T.ListOf(y.server.versions, c) }

  function OwnersOf(y: System, c: ContainerId): seq<Option<nat>> { if c in y.owners then y.owners[c] else [] }

  /** What a query makes of the owners: an entry it caches is nobody's. */
  function SyncedOwners(y: System, c: ContainerId, remote: Option<T.ModelMeta>): seq<Option<nat>> {
    if EntriesOf(y, c) != [] || remote.None? || remote.value.status == T.UNTRAINED then OwnersOf(y, c)
    else OwnersOf(y, c) + [None]
  }

  predicate IsWaiting(y: System, id: nat) { id < |y.attempts| && y.attempts[id].progress == Waiting }

  function DropLast<A>(s: seq<A>): seq<A> { if s == [] then [] else s[..|s| - 1] }

  function Act(y: System, a: Action): System {
    match a
    case Begin(c, remote, now) =>
      System(T.Begun(y.server, c, remote, now), y.attempts + [Attempt(c, Waiting)],
             y.owners[c := SyncedOwners(y, c, remote) + [Some(|y.attempts|)]])
    case Answer(id, threw) =>
      if !IsWaiting(y, id) then y
      else
        var c := y.attempts[id].containerId;
        if threw then System(T.RolledBack(y.server, c), y.attempts[id := Attempt(c, Failed)], y.owners[c := DropLast(OwnersOf(y, c))])
        else y.(attempts := y.attempts[id := Attempt(c, Succeeded)])
    case Complete(c) => y.(server := T.Completed(y.server, c))
    case Query(c, remote, now) =>
      y.(server := T.Step(y.server, T.GetMeta(c, remote, now)), owners := y.owners[c := SyncedOwners(y, c, remote)])
  }

  function PlayFrom(y: System, actions: seq<Action>): System {
    if actions == [] then y else Act(PlayFrom(y, actions[..|actions| - 1]), actions[|actions| - 1])
  }

  function Play(actions: seq<Action>): System { PlayFrom(START, actions) }

  // ---- what every interleaving keeps ----

  /** The action rolls a start of `c` back. */
  predicate RollsBack(y: System, a: Action, c: ContainerId) {
    a.Answer? && a.threw && IsWaiting(y, a.id) && y.attempts[a.id].containerId == c
  }

  predicate Begins(a: Action, c: ContainerId) { a.Begin? && a.containerId == c }
  predicate Completes(a: Action, c: ContainerId) { a.Complete? && a.containerId == c }

  lemma RollbackKeepsSound(s: T.Server, d: ContainerId, c: ContainerId)
    requires T.Sound(s, c)
    ensures T.Sound(T.RolledBack(s, d), c)
  {
  }

  lemma ActKeepsSound(y: System, a: Action, c: ContainerId)
    requires T.Sound(y.server, c)
    ensures T.Sound(Act(y, a).server, c)
  {
    hide T.Sound, T.Begun, T.RolledBack, T.Completed, T.Synced;
    match a
    case Begin(bc, remote, now) => T.StepKeepsSound(y.server, T.Start(bc, remote, now, false), c);
    case Answer(id, threw) => if IsWaiting(y, id) { RollbackKeepsSound(y.server, y.attempts[id].containerId, c); }
    case Complete(cc) => T.StepKeepsSound(y.server, T.Complete(cc), c);
    case Query(qc, remote, now) => T.StepKeepsSound(y.server, T.GetMeta(qc, remote, now), c);
  }

  /** A step as container `c` sees it. */
  lemma ActAtContainer(y: System, a: Action, c: ContainerId)
    requires T.Sound(y.server, c)
    ensures var list, after := EntriesOf(y, c), EntriesOf(Act(y, a), c);
            var owners, ownersAfter := OwnersOf(y, c), OwnersOf(Act(y, a), c);
            var pending, pendingAfter := c in y.server.jobs, c in Act(y, a).server.jobs;
            if Begins(a, c) then
              && after != [] && DropLast(after) == T.ListOf(T.Synced(y.server.versions, c, a.remote, a.now), c)
              && T.Last(after).status == T.TRAINING && pendingAfter
              && ownersAfter == SyncedOwners(y, c, a.remote) + [Some(|y.attempts|)]
            else if RollsBack(y, a, c) then
              after == DropLast(list) && ownersAfter == DropLast(owners) && !pendingAfter
            else if Completes(a, c) && pending then
              && list != [] && after == list[|list| - 1 := T.Last(list).(status := T.READY)]
              && ownersAfter == owners && !pendingAfter
            else
              && (pendingAfter <==> pending)
              && if a.Query? && a.containerId == c then
                   after == T.ListOf(T.Synced(y.server.versions, c, a.remote, a.now), c) && ownersAfter == SyncedOwners(y, c, a.remote)
                 else after == list && ownersAfter == owners
  {
    match a
    case Begin(bc, remote, now) => if bc == c { BegunAppends(y.server, c, remote, now); }
    case Answer(id, threw) =>
    case Complete(cc) => if cc == c && c in y.server.jobs { T.CompletionMakesReady(y.server, c); }
    case Query(qc, remote, now) =>
  }

  lemma BegunAppends(s: T.Server, c: ContainerId, remote: Option<T.ModelMeta>, now: int)
    ensures var before, after := T.ListOf(T.Synced(s.versions, c, remote, now), c), T.ListOf(T.Begun(s, c, remote, now).versions, c);
            && after != [] && after[..|after| - 1] == before && T.Last(after).status == T.TRAINING
            && c in T.Begun(s, c, remote, now).jobs
  {
  }

  /** The starts of `c` that have not failed. */
  function Kept(attempts: seq<Attempt>, c: ContainerId): nat {
    if attempts == [] then 0
    else Kept(attempts[..|attempts| - 1], c) + Bit(IsKept(attempts[|attempts| - 1], c))
  }

  predicate IsKept(t: Attempt, c: ContainerId) { t.containerId == c && t.progress != Failed }

  lemma {:induction false} KeptAfter(attempts: seq<Attempt>, i: nat, t: Attempt, c: ContainerId)
    requires i < |attempts|
    ensures Kept(attempts[i := t], c) == Kept(attempts, c) - Bit(IsKept(attempts[i], c)) + Bit(IsKept(t, c))
  {
    var n := |attempts| - 1;
    if i < n {
      KeptAfter(attempts[..n], i, t, c);
      assert attempts[i := t][..n] == attempts[..n][i := t];
    } else {
      assert attempts[i := t][..n] == attempts[..n];
    }
  }

  lemma KeptExtends(attempts: seq<Attempt>, t: Attempt, c: ContainerId)
    ensures Kept(attempts + [t], c) == Kept(attempts, c) + Bit(IsKept(t, c))
  {
    assert (attempts + [t])[..|attempts|] == attempts;
  }

  /** The container's first entry is one cached from the ML service. */
  predicate HasCached(y: System, c: ContainerId) { OwnersOf(y, c) != [] && OwnersOf(y, c)[0] == None }

  /** One entry for each start not failed, after a cached one if any; starts own at most one entry each. */
  predicate AddsUp(y: System, c: ContainerId) {
    var owners := OwnersOf(y, c);
    && T.Sound(y.server, c)
    && |EntriesOf(y, c)| == |owners| == Kept(y.attempts, c) + Bit(HasCached(y, c))
    && (forall i :: 0 < i < |owners| ==> owners[i].Some?)
    && (forall i :: 0 <= i < |owners| && owners[i].Some? ==> owners[i].value < |y.attempts|)
    && (forall i, j :: 0 <= i < j < |owners| ==> owners[i] != owners[j])
  }

  lemma ActAddsUp(y: System, a: Action, c: ContainerId)
    requires AddsUp(y, c)
    ensures AddsUp(Act(y, a), c)
  {
    hide T.Sound, T.ListOf, T.Synced, T.Begun, T.RolledBack, T.Completed, Kept;
    ActKeepsSound(y, a, c);
    ActAtContainer(y, a, c);
    AttemptsChange(y, a, c);
    SyncAddsOne(y.server, c);
  }

  lemma AttemptsChange(y: System, a: Action, c: ContainerId)
    ensures |y.attempts| <= |Act(y, a).attempts|
    ensures Begins(a, c) ==> |Act(y, a).attempts| == |y.attempts| + 1
    ensures RollsBack(y, a, c) ==> !Begins(a, c) && !Completes(a, c)
    ensures Kept(Act(y, a).attempts, c) == Kept(y.attempts, c) + Bit(Begins(a, c)) - Bit(RollsBack(y, a, c))
  {
    match a
    case Begin(bc, _, _) => KeptExtends(y.attempts, Attempt(bc, Waiting), c);
    case Answer(id, threw) =>
      if IsWaiting(y, id) {
        KeptAfter(y.attempts, id, Attempt(y.attempts[id].containerId, if threw then Failed else Succeeded), c);
      }
    case Complete(_) =>
    case Query(_, _, _) =>
  }

  lemma SyncAddsOne(s: T.Server, c: ContainerId)
    requires T.Sound(s, c)
    ensures forall remote, now :: var list, after := T.ListOf(s.versions, c), T.ListOf(T.Synced(s.versions, c, remote, now), c);
              if list != [] || remote.None? || remote.value.status == T.UNTRAINED then after == list else |after| == 1
  {
  }

  /**
   * In every interleaving of starts, their answers and failures, completions and queries: versions are consecutive,
   * a pending job's version is the latest entry, in training, and a container has exactly one entry for each of its
   * starts that has not failed, after a cached one if any.
   */
  lemma {:induction false} AlwaysAddsUp(actions: seq<Action>, c: ContainerId)
    ensures AddsUp(Play(actions), c)
  {
    hide Act;
    if actions != [] {
      AlwaysAddsUp(actions[..|actions| - 1], c);
      ActAddsUp(Play(actions[..|actions| - 1]), actions[|actions| - 1], c);
    }
  }

  // ---- does a failing start undo what it did? ----

  predicate Touches(y: System, a: Action, c: ContainerId) { Begins(a, c) || RollsBack(y, a, c) || Completes(a, c) }

  /** How high the entry added last before `more`, and what came on top of it, stands. */
  function Height(y: System, more: seq<Action>, c: ContainerId): int {
    if more == [] then 1
    else
      var n := |more| - 1;
      Height(y, more[..n], c) + Bit(Begins(more[n], c)) - Bit(RollsBack(PlayFrom(y, more[..n]), more[n], c))
  }

  /** At no moment have more starts of `c` been rolled back than begun on top of that entry. */
  predicate NeverRemoved(y: System, more: seq<Action>, c: ContainerId) {
    more == [] || (NeverRemoved(y, more[..|more| - 1], c) && Height(y, more, c) >= 1)
  }

  predicate Untouched(y: System, more: seq<Action>, c: ContainerId) {
    more == [] || (Untouched(y, more[..|more| - 1], c) && !Touches(PlayFrom(y, more[..|more| - 1]), more[|more| - 1], c))
  }

  /** Of the starts, rollbacks and completions of `c`, a completion comes first. */
  predicate CompletedFirst(y: System, more: seq<Action>, c: ContainerId) {
    more != [] && (CompletedFirst(y, more[..|more| - 1], c) || (Untouched(y, more[..|more| - 1], c) && Completes(more[|more| - 1], c)))
  }

  /** The latest entry of `c` is the start's own, as it was added. */
  predicate OwnIsLatest(y: System, c: ContainerId, id: nat) {
    && OwnersOf(y, c) != [] && OwnersOf(y, c)[|OwnersOf(y, c)| - 1] == Some(id)
    && EntriesOf(y, c) != [] && T.Last(EntriesOf(y, c)).status == T.TRAINING
  }

  /** A container as a start's rollback may find it: its entries, whose they are, and whether a job is pending. */
  datatype Scene = Scene(list: seq<T.ModelVersion>, owners: seq<Option<nat>>, pending: bool)

  function SceneOf(y: System, c: ContainerId): Scene { Scene(EntriesOf(y, c), OwnersOf(y, c), c in y.server.jobs) }

  /** Where the entry of start `id`, added to `base`, is, and in which state. */
  predicate Tracked(base: seq<T.ModelVersion>, id: nat, s: Scene, h: int, there: bool, untouched: bool, completed: bool) {
    var p := |base|;
    if !there then Some(id) !in s.owners
    else
      && h >= 1 && |s.list| == |s.owners| == p + h && s.list[..p] == base
      && s.owners[p] == Some(id) && (forall q :: 0 <= q < |s.owners| && q != p ==> s.owners[q] != Some(id))
      && (s.list[p].status == T.TRAINING <==> !completed)
      && (if untouched then h == 1 && s.pending && !completed else h == 1 ==> !s.pending)
  }

  lemma TrackedUnderStart(base: seq<T.ModelVersion>, id: nat, s: Scene, t: Scene, h: int, there: bool, untouched: bool, completed: bool, n: nat)
    requires Tracked(base, id, s, h, there, untouched, completed) && n != id && |s.list| == |s.owners|
    requires t.list != [] && t.owners != [] && t.owners[|t.owners| - 1] == Some(n) && t.pending
    requires if s.list != [] then DropLast(t.list) == s.list && DropLast(t.owners) == s.owners
             else t.owners in {[Some(n)], [None, Some(n)]}
    ensures (there ==> h >= 1) && Tracked(base, id, t, h + 1, there, false, completed)
  {
  }

  lemma TrackedUnderRollback(base: seq<T.ModelVersion>, id: nat, s: Scene, t: Scene, h: int, there: bool, untouched: bool, completed: bool)
    requires Tracked(base, id, s, h, there, untouched, completed)
    requires t == Scene(DropLast(s.list), DropLast(s.owners), false)
    ensures (there ==> h >= 1) && Tracked(base, id, t, h - 1, there && h - 1 >= 1, false, completed)
  {
  }

  lemma TrackedUnderCompletion(base: seq<T.ModelVersion>, id: nat, s: Scene, t: Scene, h: int, there: bool, untouched: bool, completed: bool)
    requires Tracked(base, id, s, h, there, untouched, completed)
    requires if s.pending then s.list != [] && t == Scene(s.list[|s.list| - 1 := T.Last(s.list).(status := T.READY)], s.owners, false)
             else t == s
    ensures (there ==> h >= 1) && Tracked(base, id, t, h, there, false, completed || untouched)
  {
  }

  lemma TrackedUnderOthers(base: seq<T.ModelVersion>, id: nat, s: Scene, t: Scene, h: int, there: bool, untouched: bool, completed: bool)
    requires Tracked(base, id, s, h, there, untouched, completed)
    requires if s.list != [] then t == s else t.owners in {[], [None]}
    ensures (there ==> h >= 1) && Tracked(base, id, t, h, there, untouched, completed)
  {
  }

  lemma AddsUpImplies(y: System, c: ContainerId)
    requires AddsUp(y, c)
    ensures T.Sound(y.server, c) && |EntriesOf(y, c)| == |OwnersOf(y, c)|
  {
  }

  /** The scene after a step, in the terms of the four lemmas above. */
  lemma SceneStep(y: System, a: Action, c: ContainerId)
    requires T.Sound(y.server, c) && |EntriesOf(y, c)| == |OwnersOf(y, c)|
    ensures var s, t, n := SceneOf(y, c), SceneOf(Act(y, a), c), |y.attempts|;
            && |s.list| == |s.owners|
            && if Begins(a, c) then
                 && t.list != [] && t.owners != [] && t.owners[|t.owners| - 1] == Some(n) && t.pending
                 && if s.list != [] then DropLast(t.list) == s.list && DropLast(t.owners) == s.owners
                    else t.owners in {[Some(n)], [None, Some(n)]}
               else if RollsBack(y, a, c) then t == Scene(DropLast(s.list), DropLast(s.owners), false)
               else if Completes(a, c) then
                 if s.pending then s.list != [] && t == Scene(s.list[|s.list| - 1 := T.Last(s.list).(status := T.READY)], s.owners, false)
                 else t == s
               else if s.list != [] then t == s
               else t.owners in {[], [None]}
  {
    hide Act, T.ListOf, T.Synced, T.Sound, RollsBack, Kept;
    ActAtContainer(y, a, c);
    SyncAddsOne(y.server, c);
    var none, own: seq<Option<nat>> := [None], [Some(|y.attempts|)];
    assert [] + none == none && none + own == [None, Some(|y.attempts|)] && [] + own == own;
    assert EntriesOf(y, c) == [] ==> OwnersOf(y, c) == [];
  }

  lemma PlaySnoc(y: System, more: seq<Action>, a: Action)
    ensures PlayFrom(y, more + [a]) == Act(PlayFrom(y, more), a)
  {
    assert (more + [a])[..|more|] == more;
  }

  lemma TrackedStep(y: System, base: seq<T.ModelVersion>, c: ContainerId, id: nat, more: seq<Action>, a: Action)
    requires AddsUp(PlayFrom(y, more), c) && id < |PlayFrom(y, more).attempts|
    requires Tracked(base, id, SceneOf(PlayFrom(y, more), c), Height(y, more, c), NeverRemoved(y, more, c),
                     Untouched(y, more, c), CompletedFirst(y, more, c))
    ensures id < |PlayFrom(y, more + [a]).attempts|
    ensures Tracked(base, id, SceneOf(PlayFrom(y, more + [a]), c), Height(y, more + [a], c), NeverRemoved(y, more + [a], c),
                    Untouched(y, more + [a], c), CompletedFirst(y, more + [a], c))
  {
    hide Act, Tracked, RollsBack, SceneOf, AddsUp;
    var z := PlayFrom(y, more);
    PlaySnoc(y, more, a);
    assert (more + [a])[..|more|] == more;
    AddsUpImplies(z, c);
    SceneStep(z, a, c);
    AttemptsChange(z, a, c);
    var s, t := SceneOf(z, c), SceneOf(Act(z, a), c);
    var h, there, untouched, completed := Height(y, more, c), NeverRemoved(y, more, c), Untouched(y, more, c), CompletedFirst(y, more, c);
    if Begins(a, c) {
      TrackedUnderStart(base, id, s, t, h, there, untouched, completed, |z.attempts|);
    } else if RollsBack(z, a, c) {
      TrackedUnderRollback(base, id, s, t, h, there, untouched, completed);
    } else if Completes(a, c) {
      TrackedUnderCompletion(base, id, s, t, h, there, untouched, completed);
    } else {
      TrackedUnderOthers(base, id, s, t, h, there, untouched, completed);
    }
  }

  lemma PlayOneMore(run: seq<Action>, a: Action)
    ensures Play(run + [a]) == Act(Play(run), a)
  {
    PlaySnoc(START, run, a);
  }

  lemma {:induction false} PlayConcat(before: seq<Action>, more: seq<Action>)
    ensures Play(before + more) == PlayFrom(Play(before), more)
  {
    hide Act;
    if more == [] {
      assert before + more == before;
    } else {
      PlayConcat(before, more[..|more| - 1]);
      assert (before + more)[..|before + more| - 1] == before + more[..|more| - 1];
    }
  }

  lemma TrackedFromStart(before: seq<Action>, c: ContainerId, remote: Option<T.ModelMeta>, now: int)
    ensures var y := Play(before); var z := Act(y, Begin(c, remote, now));
            var base := T.ListOf(T.Synced(y.server.versions, c, remote, now), c);
            |z.attempts| == |y.attempts| + 1 && Tracked(base, |y.attempts|, SceneOf(z, c), 1, true, true, false)
  {
    hide Act, Play, T.ListOf, T.Synced, T.Sound;
    var y := Play(before);
    AlwaysAddsUp(before, c);
    ActAtContainer(y, Begin(c, remote, now), c);
    AttemptsChange(y, Begin(c, remote, now), c);
    SyncAddsOne(y.server, c);
  }

  lemma {:induction false} AlwaysTracked(before: seq<Action>, c: ContainerId, remote: Option<T.ModelMeta>, now: int, more: seq<Action>)
    ensures var y := Play(before); var z := Act(y, Begin(c, remote, now));
            var base := T.ListOf(T.Synced(y.server.versions, c, remote, now), c);
            && |y.attempts| < |PlayFrom(z, more).attempts|
            && Tracked(base, |y.attempts|, SceneOf(PlayFrom(z, more), c), Height(z, more, c), NeverRemoved(z, more, c),
                       Untouched(z, more, c), CompletedFirst(z, more, c))
  {
    hide Act, Play, T.ListOf, T.Synced, T.Sound, Tracked;
    var start := Begin(c, remote, now);
    TrackedFromStart(before, c, remote, now);
    if more != [] {
      var n := |more| - 1;
      var z := Act(Play(before), start);
      AlwaysTracked(before, c, remote, now, more[..n]);
      StartedFrom(before, start, more[..n]);
      AlwaysAddsUp(before + [start] + more[..n], c);
      TrackedStep(z, T.ListOf(T.Synced(Play(before).server.versions, c, remote, now), c), c, |Play(before).attempts|, more[..n], more[n]);
      assert more[..n] + [more[n]] == more;
    }
  }

  lemma StartedFrom(before: seq<Action>, start: Action, more: seq<Action>)
    ensures Play(before + [start] + more) == PlayFrom(Act(Play(before), start), more)
  {
    PlayConcat(before + [start], more);
    PlaySnoc(START, before, start);
  }

  lemma {:induction false} AttemptPersists(y: System, more: seq<Action>, id: nat)
    requires id < |y.attempts|
    ensures id < |PlayFrom(y, more).attempts| && PlayFrom(y, more).attempts[id].containerId == y.attempts[id].containerId
  {
    if more != [] { AttemptPersists(y, more[..|more| - 1], id); }
  }

  lemma NewAttempt(y: System, c: ContainerId, remote: Option<T.ModelMeta>, now: int)
    ensures Act(y, Begin(c, remote, now)).attempts == y.attempts + [Attempt(c, Waiting)]
  {
  }

  /** The starts of `c` begun since have all been rolled back, no start before them has, and no completion came first. */
  predicate Undisturbed(y: System, more: seq<Action>, c: ContainerId) {
    NeverRemoved(y, more, c) && Height(y, more, c) == 1 && !CompletedFirst(y, more, c)
  }

  /**
   * What a failing start undoes. When the exception comes, after `more` of whatever else, the entry it removes is the
   * start's own, still in training, if and only if the starts of the container that came between have all been
   * rolled back, no earlier one has, and no completion came before them. The registry is then as it was just after
   * the query the start began with; otherwise a ready version or another start's entry goes.
   */
  lemma RollbackUndoesOwnIff(before: seq<Action>, c: ContainerId, remote: Option<T.ModelMeta>, now: int, more: seq<Action>)
    ensures var y, run := Play(before), before + [Begin(c, remote, now)] + more;
            && (OwnIsLatest(Play(run), c, |y.attempts|) <==> Undisturbed(Act(y, Begin(c, remote, now)), more, c))
            && (IsWaiting(Play(run), |y.attempts|) && OwnIsLatest(Play(run), c, |y.attempts|) ==>
                 EntriesOf(Play(run + [Answer(|y.attempts|, true)]), c) == T.ListOf(T.Synced(y.server.versions, c, remote, now), c))
  {
    hide Act, Play, T.ListOf, T.Synced, T.Sound, Height, NeverRemoved, CompletedFirst, Untouched;
    var y, start := Play(before), Begin(c, remote, now);
    var run, id := before + [start] + more, |y.attempts|;
    AlwaysTracked(before, c, remote, now, more);
    StartedFrom(before, start, more);
    AlwaysAddsUp(run, c);
    if IsWaiting(Play(run), id) {
      NewAttempt(y, c, remote, now);
      AttemptPersists(Act(y, start), more, id);
      PlayOneMore(run, Answer(id, true));
      ActAtContainer(Play(run), Answer(id, true), c);
    }
  }

  lemma {:induction false} UntouchedIsUndisturbed(y: System, more: seq<Action>, c: ContainerId)
    requires Untouched(y, more, c)
    ensures Undisturbed(y, more, c)
  {
    if more != [] { UntouchedIsUndisturbed(y, more[..|more| - 1], c); }
  }

  /**
   * So with no other start, rollback or completion of the container in between, a start that fails leaves the
   * registry's entries for it as they were just after its query, whatever happens to other containers.
   */
  lemma LoneStartRollsBack(before: seq<Action>, c: ContainerId, remote: Option<T.ModelMeta>, now: int, more: seq<Action>)
    requires var y := Play(before);
             Untouched(Act(y, Begin(c, remote, now)), more, c) && IsWaiting(Play(before + [Begin(c, remote, now)] + more), |y.attempts|)
    ensures var y, run := Play(before), before + [Begin(c, remote, now)] + more;
            EntriesOf(Play(run + [Answer(|y.attempts|, true)]), c) == T.ListOf(T.Synced(y.server.versions, c, remote, now), c)
  {
    hide Act, Play, Untouched, Undisturbed;
    UntouchedIsUndisturbed(Act(Play(before), Begin(c, remote, now)), more, c);
    RollbackUndoesOwnIff(before, c, remote, now, more);
  }

  /** A completion in between makes the rollback remove a version that is ready. */
  lemma RollbackRemovesReady(c: ContainerId)
    ensures var run := [Begin(c, None, 0), Complete(c)];
            && EntriesOf(Play(run), c) == [T.ModelVersion(T.ModelOf(c), c, 1, 0, T.READY)]
            && EntriesOf(Play(run + [Answer(0, true)]), c) == []
  {
    hide PlayFrom;
    var start, run := Begin(c, None, 0), [Begin(c, None, 0), Complete(c)];
    NothingPlayed();
    PlaySnoc(START, [], start);
    PlaySnoc(START, [start], Complete(c));
    PlaySnoc(START, run, Answer(0, true));
    assert [] + [start] == [start] && [start] + [Complete(c)] == run;
  }

  lemma NothingPlayed()
    ensures PlayFrom(START, []) == START
  {
  }

  // ---- what a query answers ----

  /** The first entry of `c` is the first version ever, unless it is cached. */
  predicate CountsFromOne(y: System, c: ContainerId) {
    !HasCached(y, c) && EntriesOf(y, c) != [] ==> EntriesOf(y, c)[0].version == 1
  }

  /** Every entry is the container's, and a start's entry bears the name derived from it. */
  predicate NamedAfter(y: System, c: ContainerId) {
    forall i :: 0 <= i < |EntriesOf(y, c)| && i < |OwnersOf(y, c)| ==>
      EntriesOf(y, c)[i].containerId == c && (OwnersOf(y, c)[i].Some? ==> EntriesOf(y, c)[i].modelId == T.ModelOf(c))
  }

  lemma BegunEntry(y: System, c: ContainerId, remote: Option<T.ModelMeta>, now: int)
    ensures var synced, after := T.ListOf(T.Synced(y.server.versions, c, remote, now), c), EntriesOf(Act(y, Begin(c, remote, now)), c);
            && after == synced + [T.ModelVersion(T.ModelOf(c), c, T.MetaOf(y.server.versions, c, remote).version + 1, now, T.TRAINING)]
            && (synced == [] ==> T.MetaOf(y.server.versions, c, remote).version == 0)
            && (synced != [] && EntriesOf(y, c) == [] ==> remote.Some? && synced == [T.ModelVersion(remote.value.modelId, c, remote.value.version, now, remote.value.status)])
  {
  }

  lemma SyncedEntry(y: System, c: ContainerId, remote: Option<T.ModelMeta>, now: int)
    ensures EntriesOf(y, c) == [] && T.ListOf(T.Synced(y.server.versions, c, remote, now), c) != [] ==>
              SyncedOwners(y, c, remote) == OwnersOf(y, c) + [None]
              && T.ListOf(T.Synced(y.server.versions, c, remote, now), c)[0].containerId == c
  {
  }

  /** What both say of a list of entries, whose they are, and whether the first is cached. */
  predicate NamesAndNumbers(list: seq<T.ModelVersion>, owners: seq<Option<nat>>, c: ContainerId) {
    && |list| == |owners|
    && (list != [] && owners[0].Some? ==> list[0].version == 1)
    && forall i :: 0 <= i < |list| ==> list[i].containerId == c && (owners[i].Some? ==> list[i].modelId == T.ModelOf(c))
  }

  lemma NamesAndNumbersAre(y: System, c: ContainerId)
    requires |EntriesOf(y, c)| == |OwnersOf(y, c)|
    ensures NamesAndNumbers(EntriesOf(y, c), OwnersOf(y, c), c) <==> CountsFromOne(y, c) && NamedAfter(y, c)
  {
    hide T.ListOf;
  }

  lemma NamedUnderStart(y: System, c: ContainerId, remote: Option<T.ModelMeta>, now: int)
    requires T.Sound(y.server, c) && NamesAndNumbers(EntriesOf(y, c), OwnersOf(y, c), c)
    ensures var z := Act(y, Begin(c, remote, now)); NamesAndNumbers(EntriesOf(z, c), OwnersOf(z, c), c)
  {
    hide Act, T.Sound, T.ListOf, T.Synced, T.MetaOf;
    ActAtContainer(y, Begin(c, remote, now), c);
    SyncAddsOne(y.server, c);
    BegunEntry(y, c, remote, now);
    SyncedEntry(y, c, remote, now);
  }

  lemma NamedUnderQuery(y: System, c: ContainerId, remote: Option<T.ModelMeta>, now: int)
    requires T.Sound(y.server, c) && NamesAndNumbers(EntriesOf(y, c), OwnersOf(y, c), c)
    ensures var z := Act(y, Query(c, remote, now)); NamesAndNumbers(EntriesOf(z, c), OwnersOf(z, c), c)
  {
    hide Act, T.Sound, T.ListOf, T.Synced, T.MetaOf;
    ActAtContainer(y, Query(c, remote, now), c);
    SyncAddsOne(y.server, c);
    SyncedEntry(y, c, remote, now);
  }

  lemma NamedUnderOthers(y: System, a: Action, c: ContainerId)
    requires T.Sound(y.server, c) && NamesAndNumbers(EntriesOf(y, c), OwnersOf(y, c), c)
    requires !Begins(a, c) && !(a.Query? && a.containerId == c)
    ensures NamesAndNumbers(EntriesOf(Act(y, a), c), OwnersOf(Act(y, a), c), c)
  {
    hide Act, T.Sound, T.ListOf, T.Synced, RollsBack;
    ActAtContainer(y, a, c);
  }

  lemma ActCountsFromOne(y: System, a: Action, c: ContainerId)
    requires AddsUp(y, c) && AddsUp(Act(y, a), c) && CountsFromOne(y, c) && NamedAfter(y, c)
    ensures CountsFromOne(Act(y, a), c) && NamedAfter(Act(y, a), c)
  {
    hide Act, T.Sound, T.ListOf, EntriesOf, OwnersOf, NamesAndNumbers, CountsFromOne, NamedAfter, AddsUp;
    AddsUpImplies(y, c);
    AddsUpImplies(Act(y, a), c);
    NamesAndNumbersAre(y, c);
    NamesAndNumbersAre(Act(y, a), c);
    if Begins(a, c) {
      NamedUnderStart(y, c, a.remote, a.now);
    } else if a.Query? && a.containerId == c {
      NamedUnderQuery(y, c, a.remote, a.now);
    } else {
      NamedUnderOthers(y, a, c);
    }
  }

  lemma {:induction false} AlwaysCountsFromOne(actions: seq<Action>, c: ContainerId)
    ensures CountsFromOne(Play(actions), c) && NamedAfter(Play(actions), c)
  {
    hide Act;
    if actions != [] {
      AlwaysCountsFromOne(actions[..|actions| - 1], c);
      AlwaysAddsUp(actions[..|actions| - 1], c);
      AlwaysAddsUp(actions, c);
      ActCountsFromOne(Play(actions[..|actions| - 1]), actions[|actions| - 1], c);
    }
  }

  lemma {:induction false} VersionAt(list: seq<T.ModelVersion>, i: nat)
    requires T.Consecutive(list) && i < |list|
    ensures list[i].version == list[0].version + i
  {
    if i > 0 { VersionAt(list, i - 1); }
  }

  /** The version of the entry cached first, or zero. */
  function CachedVersion(y: System, c: ContainerId): int {
    if HasCached(y, c) && EntriesOf(y, c) != [] then EntriesOf(y, c)[0].version else 0
  }

  /**
   * What a query answers, after any interleaving. With an entry, a version that is the number of the container's starts
   * not failed, on top of the cached version if there is one; in training while a job is pending, ready once that
   * is completed; under the name derived from the container if there was a start. Without, the ML service's own
   * answer, or that there is no model.
   */
  lemma QueryAnswers(actions: seq<Action>, c: ContainerId, remote: Option<T.ModelMeta>)
    ensures var y := Play(actions); var m, kept := T.MetaOf(y.server.versions, c, remote), Kept(y.attempts, c);
            && (EntriesOf(y, c) == [] <==> kept == 0 && !HasCached(y, c))
            && (EntriesOf(y, c) != [] ==> m.containerId == c && m.version == CachedVersion(y, c) + kept)
            && (kept > 0 ==> m.modelId == T.ModelOf(c))
            && (c in y.server.jobs ==>
                 m.status == T.TRAINING && T.MetaOf(Act(y, Complete(c)).server.versions, c, remote) == m.(status := T.READY))
            && (EntriesOf(y, c) == [] ==>
                 m == if remote.Some? && remote.value.status != T.UNTRAINED then remote.value else T.ModelMeta(T.Unset, c, 0, T.UNTRAINED))
  {
    hide Play, Act, Kept, T.Synced;
    var y := Play(actions);
    AlwaysAddsUp(actions, c);
    AlwaysCountsFromOne(actions, c);
    ActAtContainer(y, Complete(c), c);
    var list := EntriesOf(y, c);
    if list != [] { VersionAt(list, |list| - 1); }
  }
}
