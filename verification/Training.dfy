/** The server's model registry and its training jobs. */
module Training {
  import opened Common
  import opened Trace

  datatype ModelStatus = UNTRAINED | TRAINING | READY | ERROR

  /** A model's name: unset, derived from its container, or whatever the ML service calls it. */
  datatype ModelId = Unset | ModelOf(containerId: ContainerId) | Named(name: string)

  datatype ModelMeta = ModelMeta(modelId: ModelId, containerId: ContainerId, version: int, status: ModelStatus)
  datatype ModelVersion = ModelVersion(modelId: ModelId, containerId: ContainerId, version: int, trainedAt: int, status: ModelStatus)

  type Versions = map<ContainerId, seq<ModelVersion>>
  datatype Server = Server(versions: Versions, jobs: map<ContainerId, int>)

  const INITIAL := Server(map[], map[])

  function ListOf(v: Versions, c: ContainerId): seq<ModelVersion> { if c in v then v[c] else [] }

  function Last(list: seq<ModelVersion>): ModelVersion
    requires list != []
  {
    list[|list| - 1]
  }

  // ---- the registry's operations, on its map ----

  function Updated(v: Versions, c: ContainerId, modelId: ModelId, version: int, status: ModelStatus, now: int): Versions {
    v[c := ListOf(v, c) + [ModelVersion(modelId, c, version, now, status)]]
  }

  /** `remote` is what the ML service answers: nothing if the port is unset, fails or knows no model. */
  function Synced(v: Versions, c: ContainerId, remote: Option<ModelMeta>, now: int): Versions {
    if ListOf(v, c) != [] || remote.None? || remote.value.status == UNTRAINED then v
    else Updated(v, c, remote.value.modelId, remote.value.version, remote.value.status, now)
  }

  function MetaOf(v: Versions, c: ContainerId, remote: Option<ModelMeta>): ModelMeta {
    var list := ListOf(v, c);
    if list != [] then ModelMeta(Last(list).modelId, Last(list).containerId, Last(list).version, Last(list).status)
    else if remote.Some? && remote.value.status != UNTRAINED then remote.value
    else ModelMeta(Unset, c, 0, UNTRAINED)
  }

  function StatusSet(v: Versions, c: ContainerId, version: int, status: ModelStatus): Versions {
    var list := ListOf(v, c);
    if list == [] || Last(list).version != version then v
    else v[c := list[|list| - 1 := Last(list).(status := status)]]
  }

  function LatestRemoved(v: Versions, c: ContainerId): Versions {
    var list := ListOf(v, c);
    if list == [] then v
    else if |list| == 1 then v - {c}
    else v[c := list[..|list| - 1]]
  }

  // ---- the service's operations ----

  /** What a start does before it asks the agent for a dump. */
  function Begun(s: Server, c: ContainerId, remote: Option<ModelMeta>, now: int): Server {
    var version := MetaOf(s.versions, c, remote).version + 1;
    Server(Updated(Synced(s.versions, c, remote, now), c, ModelOf(c), version, TRAINING, now), s.jobs[c := version])
  }

  /** What it does if that raises. */
  function RolledBack(s: Server, c: ContainerId): Server { Server(LatestRemoved(s.versions, c), s.jobs - {c}) }

  /** Start a training; `threw` says whether the dump request to the agent raised an exception. */
  function Started(s: Server, c: ContainerId, remote: Option<ModelMeta>, now: int, threw: bool): Server {
    if threw then RolledBack(Begun(s, c, remote, now), c) else Begun(s, c, remote, now)
  }

  function Completed(s: Server, c: ContainerId): Server {
    if c !in s.jobs then s
    else Server(StatusSet(s.versions, c, s.jobs[c], READY), s.jobs - {c})
  }

  class ModelRegistryService {
    var versions: Versions

    constructor ()
      ensures versions == map[]
    {
      versions := map[];
    }

    method Update(c: ContainerId, modelId: ModelId, version: int, status: ModelStatus, now: int)
      modifies this
      ensures versions == Updated(old(versions), c, modelId, version, status, now)
    {
      var mv := ModelVersion(modelId, c, version, now, status);
      if c !in versions {
        versions := versions[c := []];
      }
      versions := versions[c := versions[c] + [mv]];
    }

    /** The first answer for a container with no entry is cached from the ML service, if that has a model. */
    method GetMeta(c: ContainerId, remote: Option<ModelMeta>, now: int) returns (meta: ModelMeta)
      modifies this
      ensures meta == MetaOf(old(versions), c, remote) && versions == Synced(old(versions), c, remote, now)
    {
      if c in versions && versions[c] != [] {
        var v := versions[c][|versions[c]| - 1];
        return ModelMeta(v.modelId, v.containerId, v.version, v.status);
      }
      if remote.Some? && remote.value.status != UNTRAINED {
        Update(c, remote.value.modelId, remote.value.version, remote.value.status, now);
        return remote.value;
      }
      meta := ModelMeta(Unset, c, 0, UNTRAINED);
    }

    method SetStatus(c: ContainerId, version: int, status: ModelStatus)
      modifies this
      ensures versions == StatusSet(old(versions), c, version, status)
    {
      if c !in versions || versions[c] == [] {
        return;
      }
      var list := versions[c];
      var latest := list[|list| - 1];
      if latest.version != version {
        return;
      }
      versions := versions[c := list[|list| - 1 := latest.(status := status)]];
    }

    method RemoveLatest(c: ContainerId)
      modifies this
      ensures versions == LatestRemoved(old(versions), c)
    {
      if c !in versions || versions[c] == [] {
        return;
      }
      var list := versions[c][..|versions[c]| - 1];
      versions := versions[c := list];
      if list == [] {
        versions := versions - {c};
      }
    }
  }

  class TrainingService {
    const registry: ModelRegistryService
    var jobs: map<ContainerId, int>

    constructor (registry: ModelRegistryService)
      ensures this.registry == registry && jobs == map[]
    {
      this.registry := registry;
      jobs := map[];
    }

    function State(): Server
      reads this, registry
    {
      Server(registry.versions, jobs)
    }

    method Begin(c: ContainerId, remote: Option<ModelMeta>, now: int)
      modifies this, registry
      ensures State() == Begun(old(State()), c, remote, now)
    {
      hide Synced, MetaOf, Updated;
      var meta := registry.GetMeta(c, remote, now);
      var nextVersion := meta.version + 1;
      registry.Update(c, ModelOf(c), nextVersion, TRAINING, now);
      jobs := jobs[c := nextVersion];
    }

    method RollBack(c: ContainerId)
      modifies this, registry
      ensures State() == RolledBack(old(State()), c)
    {
      jobs := jobs - {c};
      registry.RemoveLatest(c);
    }

    /** While the agent is asked, other requests can be served: `ConcurrentTraining` lets them come between. */
    method StartOrchestratedTraining(c: ContainerId, remote: Option<ModelMeta>, now: int, agentThrows: bool) returns (threw: bool)
      modifies this, registry
      ensures threw == agentThrows && State() == Started(old(State()), c, remote, now, agentThrows)
    {
      hide Begun, RolledBack;
      Begin(c, remote, now);
      threw := agentThrows;
      if agentThrows {
        RollBack(c);
      }
    }

    method HandleDumpComplete(c: ContainerId)
      modifies this, registry
      ensures State() == Completed(old(State()), c)
    {
      if c !in jobs {
        return;
      }
      var version := jobs[c];
      jobs := jobs - {c};
      registry.SetStatus(c, version, READY);
    }
  }

  // ---- runs ----

  datatype Call =
    | Start(containerId: ContainerId, remote: Option<ModelMeta>, now: int, threw: bool)
    | Complete(containerId: ContainerId)
    | GetMeta(containerId: ContainerId, remote: Option<ModelMeta>, now: int)

  function Step(s: Server, call: Call): Server {
    match call
    case Start(c, remote, now, threw) => Started(s, c, remote, now, threw)
    case Complete(c) => Completed(s, c)
    case GetMeta(c, remote, now) => s.(versions := Synced(s.versions, c, remote, now))
  }

  function Run(calls: seq<Call>): Server {
    if calls == [] then INITIAL else Step(Run(calls[..|calls| - 1]), calls[|calls| - 1])
  }

  predicate Consecutive(list: seq<ModelVersion>) {
    forall i :: 0 < i < |list| ==> list[i].version == list[i - 1].version + 1
  }

  /** The list of one container with its pending job, if any. */
  predicate Sound(s: Server, c: ContainerId) {
    && (c in s.versions ==> s.versions[c] != [] && Consecutive(s.versions[c]))
    && (c in s.jobs ==> c in s.versions && Last(s.versions[c]).version == s.jobs[c] && Last(s.versions[c]).status == TRAINING)
  }

  lemma AddedIsRemoved(v: Versions, c: ContainerId, modelId: ModelId, version: int, status: ModelStatus, now: int)
    requires c in v ==> v[c] != []
    ensures LatestRemoved(Updated(v, c, modelId, version, status, now), c) == v
  {
    var list, added := ListOf(v, c), Updated(v, c, modelId, version, status, now);
    assert added[c][..|list|] == list;
    if list == [] {
      assert added - {c} == v;
    } else {
      assert added[c := list] == v;
    }
  }

  /** A failing start leaves the registry as it was just after the query it began with. */
  lemma FailedStartRollsBack(s: Server, c: ContainerId, remote: Option<ModelMeta>, now: int)
    requires Sound(s, c)
    ensures Started(s, c, remote, now, true).versions == Synced(s.versions, c, remote, now)
  {
    hide Synced, MetaOf, LatestRemoved, Updated;
    SyncKeepsSound(s, c, remote, now);
    AddedIsRemoved(Synced(s.versions, c, remote, now), c, ModelOf(c), MetaOf(s.versions, c, remote).version + 1, TRAINING, now);
  }

  /** An operation on one container leaves the others' entries and jobs alone. */
  lemma StepLeavesOthers(s: Server, call: Call, c: ContainerId)
    requires call.containerId != c
    ensures var t := Step(s, call);
            && (c in t.versions <==> c in s.versions) && (c in s.versions ==> t.versions[c] == s.versions[c])
            && (c in t.jobs <==> c in s.jobs) && (c in s.jobs ==> t.jobs[c] == s.jobs[c])
  {
  }

  /** A status is set on the latest entry alone, and only if that is of the version meant. */
  lemma StatusIsOfLatest(v: Versions, c: ContainerId, version: int, status: ModelStatus, d: ContainerId)
    ensures var before, after := ListOf(v, d), ListOf(StatusSet(v, c, version, status), d);
            && |after| == |before|
            && forall i :: 0 <= i < |before| ==>
                 after[i] == if d == c && i == |before| - 1 && before[i].version == version then before[i].(status := status) else before[i]
  {
  }

  /** What the ML service answers first is what is answered from then on, whatever it would answer later. */
  lemma CachedAnswerStays(v: Versions, c: ContainerId, first: ModelMeta, later: Option<ModelMeta>, now: int)
    requires ListOf(v, c) == [] && first.status != UNTRAINED && first.containerId == c
    ensures MetaOf(v, c, Some(first)) == first && MetaOf(Synced(v, c, Some(first), now), c, later) == first
  {
  }

  lemma SyncKeepsSound(s: Server, c: ContainerId, remote: Option<ModelMeta>, now: int)
    requires Sound(s, c)
    ensures Sound(s.(versions := Synced(s.versions, c, remote, now)), c)
    ensures ListOf(Synced(s.versions, c, remote, now), c) != [] ==>
              Last(ListOf(Synced(s.versions, c, remote, now), c)).version == MetaOf(s.versions, c, remote).version
  {
  }

  lemma StartKeepsSound(s: Server, c: ContainerId, remote: Option<ModelMeta>, now: int, threw: bool)
    requires Sound(s, c)
    ensures Sound(Started(s, c, remote, now, threw), c)
  {
    hide Synced, MetaOf, LatestRemoved;
    SyncKeepsSound(s, c, remote, now);
    FailedStartRollsBack(s, c, remote, now);
  }

  lemma StepKeepsSound(s: Server, call: Call, c: ContainerId)
    requires Sound(s, c)
    ensures Sound(Step(s, call), c)
  {
    hide Started, Synced;
    if call.containerId != c {
      StepLeavesOthers(s, call, c);
    } else {
      match call
      case Start(_, remote, now, threw) => StartKeepsSound(s, c, remote, now, threw);
      case GetMeta(_, remote, now) => SyncKeepsSound(s, c, remote, now);
      case Complete(_) =>
    }
  }

  /**
   * In every run of starts, failing starts, completions and queries: a container's versions are consecutive, no
   * key maps to an empty list, and a pending job's version is the latest entry, which is in training.
   */
  lemma {:induction false} AlwaysSound(calls: seq<Call>, c: ContainerId)
    ensures Sound(Run(calls), c)
  {
    if calls != [] {
      AlwaysSound(calls[..|calls| - 1], c);
      StepKeepsSound(Run(calls[..|calls| - 1]), calls[|calls| - 1], c);
    }
  }

  /** It leaves the whole service as that query did if and only if no earlier job of the container was pending. */
  lemma FailedStartIsNeutralIff(s: Server, c: ContainerId, remote: Option<ModelMeta>, now: int)
    requires Sound(s, c)
    ensures Started(s, c, remote, now, true) == Step(s, GetMeta(c, remote, now)) <==> c !in s.jobs
  {
    FailedStartRollsBack(s, c, remote, now);
    if c !in s.jobs {
      assert s.jobs - {c} == s.jobs;
    }
  }

  /** The `p`-th entry of `c` is `entry`, and no job of `c` is for it. */
  predicate Stranded(s: Server, c: ContainerId, p: nat, entry: ModelVersion) {
    var list := ListOf(s.versions, c);
    p < |list| && list[p] == entry && (p == |list| - 1 ==> c !in s.jobs)
  }

  lemma StepKeepsStranded(s: Server, call: Call, c: ContainerId, p: nat, entry: ModelVersion)
    requires Sound(s, c) && Stranded(s, c, p, entry)
    ensures Stranded(Step(s, call), c, p, entry)
  {
    if call.containerId != c {
      StepLeavesOthers(s, call, c);
    } else if call.Start? {
      FailedStartRollsBack(s, c, call.remote, call.now);
    }
  }

  lemma RunSnoc(calls: seq<Call>, call: Call)
    ensures Run(calls + [call]) == Step(Run(calls), call)
  {
    assert (calls + [call])[..|calls|] == calls;
  }

  /**
   * So a start that fails while a job is pending strands the training before it: however the run goes on, with
   * completions, starts, failing starts and queries, that version's entry stays in the list as it is, in training.
   */
  lemma {:induction false} FailedStartStrandsEarlierJob(calls: seq<Call>, c: ContainerId, remote: Option<ModelMeta>, now: int, more: seq<Call>)
    requires c in Run(calls).jobs
    ensures var list := ListOf(Run(calls).versions, c);
            && list != [] && Last(list).version == Run(calls).jobs[c] && Last(list).status == TRAINING
            && Stranded(Run(calls + [Start(c, remote, now, true)] + more), c, |list| - 1, Last(list))
  {
    hide Step, Stranded;
    var failed := calls + [Start(c, remote, now, true)];
    AlwaysSound(calls, c);
    if more == [] {
      RunSnoc(calls, Start(c, remote, now, true));
      StartStrands(Run(calls), c, remote, now);
      assert failed + more == failed;
    } else {
      var n := |more| - 1;
      FailedStartStrandsEarlierJob(calls, c, remote, now, more[..n]);
      AlwaysSound(failed + more[..n], c);
      RunSnoc(failed + more[..n], more[n]);
      assert failed + more == failed + more[..n] + [more[n]];
      var list := ListOf(Run(calls).versions, c);
      StepKeepsStranded(Run(failed + more[..n]), more[n], c, |list| - 1, Last(list));
    }
  }

  lemma StartStrands(s: Server, c: ContainerId, remote: Option<ModelMeta>, now: int)
    requires Sound(s, c) && c in s.jobs
    ensures var list := ListOf(s.versions, c);
            list != [] && Stranded(Step(s, Start(c, remote, now, true)), c, |list| - 1, Last(list))
  {
    FailedStartRollsBack(s, c, remote, now);
  }

  /** A completion with a pending job makes exactly the latest entry ready and ends the job. */
  lemma CompletionMakesReady(s: Server, c: ContainerId)
    requires Sound(s, c) && c in s.jobs
    ensures var t, list := Completed(s, c), s.versions[c];
            t.versions == s.versions[c := list[|list| - 1 := Last(list).(status := READY)]] && t.jobs == s.jobs - {c}
  {
  }
}
