/** The ML service's registry of models: in memory, over files on disk. */
module ModelStore {
  import opened Common
  import Triage

  /** What scikit-learn's estimator is: absent, created but not fitted, or fitted. */
  datatype Forest = Absent | Unfit | Fit

  /** The bookkeeping of a model. The forest is usually fitted if the flag is set, but see `FailedRefitBreaksScoring`. */
  datatype Model = Model(containerId: string, version: nat, trainedAt: Option<int>, sampleCount: nat, isFitted: bool, forest: Forest)

  function NewModel(id: string): Model { Model(id, 0, None, 0, false, Absent) }

  function Fitted(m: Model, samples: nat, now: int): Model {
    m.(version := m.version + 1, trainedAt := Some(now), sampleCount := samples, isFitted := true, forest := Fit)
  }

  const MIN_SAMPLES := 10

  /** What comes of fitting enough samples: success, samples that form no array, or an exception from the fit itself. */
  datatype Outcome = Fits | Malformed | FitRaises

  /** A model after a training, and whether that succeeded: the new forest is in place before it is fitted. */
  function AfterFit(m: Model, samples: nat, now: int, outcome: Outcome): Model {
    if samples < MIN_SAMPLES || outcome.Malformed? then m
    else if outcome.FitRaises? then m.(forest := Unfit)
    else Fitted(m, samples, now)
  }

  predicate Succeeds(samples: nat, outcome: Outcome) { samples >= MIN_SAMPLES && outcome.Fits? }

  /** The score and its verdict, or nothing for the exception an unfitted forest raises. */
  function ScoreOf(m: Model, sample: real, threshold: real): Option<(real, bool)> {
    if !m.isFitted || m.forest.Absent? then Some((0.0, false))
    else if m.forest.Unfit? then None
    else Some((sample, sample < threshold))
  }

  /** A model object, which training updates in place. */
  class IsolationForestModel {
    const containerId: string
    var version: nat
    var trainedAt: Option<int>
    var sampleCount: nat
    var isFitted: bool
    var forest: Forest

    constructor (containerId: string)
      ensures Snapshot() == NewModel(containerId)
    {
      this.containerId := containerId;
      version, trainedAt, sampleCount, isFitted, forest := 0, None, 0, false, Absent;
    }

    function Snapshot(): Model
      reads this
    {
      Model(containerId, version, trainedAt, sampleCount, isFitted, forest)
    }

    method Train(samples: nat, now: int, outcome: Outcome) returns (trained: Option<(nat, int)>)
      modifies this
      ensures trained.Some? <==> samples >= MIN_SAMPLES && outcome.Fits?
      ensures Snapshot() == AfterFit(old(Snapshot()), samples, now, outcome)
      ensures trained.Some? ==> trained.value == (version, now) && version == old(version) + 1
      ensures trained.None? ==> Snapshot() == old(Snapshot()).(forest := forest)
    {
      if samples < MIN_SAMPLES || outcome.Malformed? {
        return None;
      }
      forest := Unfit;
      if outcome.FitRaises? {
        return None;
      }
      forest := Fit;
      version := version + 1;
      trainedAt := Some(now);
      sampleCount := samples;
      isFitted := true;
      trained := Some((version, now));
    }

    /** `sample` is what a fitted forest makes of the vector. */
    method Score(sample: real, threshold: real) returns (answer: Option<(real, bool)>)
      ensures answer == ScoreOf(Snapshot(), sample, threshold)
    {
      if !isFitted || forest.Absent? {
        return Some((0.0, false));
      }
      if forest.Unfit? {
        return None;
      }
      answer := Some((sample, sample < threshold));
    }
  }

  // ---- files ----

  function Replace(s: string, a: char, b: char): string {
    if s == [] then [] else [if s[0] == a then b else s[0]] + Replace(s[1..], a, b)
  }

  function Path(id: string): string { Replace(Replace(id, '/', '_'), '\\', '_') + ".pkl" }

  /** A model's file, or what a save that failed half-way leaves of it. */
  datatype File = Whole(model: Model) | Torn

  /** A save succeeds, fails to open the file, or fails after opening it, which has already emptied it. */
  datatype Save = Saved | Unopened | Interrupted

  datatype Registry = Registry(models: map<string, Model>, disk: map<string, File>)

  const EMPTY := Registry(map[], map[])

  function Loaded(s: Registry, id: string, loads: bool): Option<Model> {
    if Path(id) in s.disk && loads && s.disk[Path(id)].Whole? then Some(s.disk[Path(id)].model) else None
  }

  /** The model a lookup finds, and the registry after it: a file found is kept in memory. */
  function Found(s: Registry, id: string, loads: bool): Option<Model> {
    if id in s.models then Some(s.models[id]) else Loaded(s, id, loads)
  }

  function AfterGet(s: Registry, id: string, loads: bool): Registry {
    match Found(s, id, loads)
    case Some(m) => s.(models := s.models[id := m])
    case None => s
  }

  function AfterGetOrCreate(s: Registry, id: string, loads: bool): Registry {
    match Found(s, id, loads)
    case Some(m) => s.(models := s.models[id := m])
    case None => s.(models := s.models[id := NewModel(id)])
  }

  function AfterSave(disk: map<string, File>, path: string, m: Model, save: Save): map<string, File> {
    match save
    case Saved => disk[path := Whole(m)]
    case Unopened => disk
    case Interrupted => disk[path := Torn]
  }

  /** A training that raises still leaves the looked-up or new model in memory. */
  function AfterTrain(s: Registry, id: string, samples: nat, now: int, outcome: Outcome, loads: bool, save: Save): Registry {
    var got := AfterGetOrCreate(s, id, loads);
    var m := AfterFit(got.models[id], samples, now, outcome);
    Registry(got.models[id := m], if Succeeds(samples, outcome) then AfterSave(got.disk, Path(id), m, save) else got.disk)
  }

  /** Only what is in memory can be deleted, with its file. */
  function AfterDelete(s: Registry, id: string): Registry {
    if id in s.models then Registry(s.models - {id}, s.disk - {Path(id)}) else s
  }

  function Restarted(s: Registry): Registry { s.(models := map[]) }

  // ---- what the metadata endpoint answers ----

  datatype Meta = Meta(modelId: string, containerId: string, version: nat, ready: bool, trainedAt: Option<int>, sampleCount: Option<nat>)

  function ModelId(id: string): string { "model-" + Replace(id, '/', '-') }

  function MetaOf(m: Model): Meta {
    Meta(ModelId(m.containerId), m.containerId, m.version, m.isFitted, m.trainedAt, if m.isFitted then Some(m.sampleCount) else None)
  }

  function Answer(s: Registry, id: string, loads: bool): Meta {
    match Found(s, id, loads)
    case Some(m) => MetaOf(m)
    case None => Meta(ModelId(id), id, 0, false, None, None)
  }

  /** What it answers while files that are whole can be read. */
  function Endpoint(s: Registry, id: string): Meta { Answer(s, id, true) }

  class ModelRegistry {
    var models: map<string, Model>
    var disk: map<string, File>

    constructor (disk: map<string, File>)
      ensures State() == Registry(map[], disk)
    {
      this.models, this.disk := map[], disk;
    }

    function State(): Registry
      reads this
    {
      Registry(models, disk)
    }

    method LoadFromDisk(id: string, loads: bool) returns (model: Option<Model>)
      ensures model == Loaded(State(), id, loads)
    {
      if Path(id) !in disk {
        return None;
      }
      model := if loads && disk[Path(id)].Whole? then Some(disk[Path(id)].model) else None;
    }

    method SaveToDisk(id: string, model: Model, save: Save)
      modifies this
      ensures models == old(models) && disk == AfterSave(old(disk), Path(id), model, save)
    {
      if save.Unopened? {
        return;
      }
      disk := disk[Path(id) := Torn];
      if save.Saved? {
        disk := disk[Path(id) := Whole(model)];
      }
    }

    method GetOrCreateModel(id: string, loads: bool) returns (model: Model)
      modifies this
      ensures State() == AfterGetOrCreate(old(State()), id, loads) && id in models && model == models[id]
    {
      if id !in models {
        var loaded := LoadFromDisk(id, loads);
        models := models[id := match loaded case Some(m) => m case None => NewModel(id)];
      } else {
        assert models == models[id := models[id]];
      }
      model := models[id];
    }

    method GetModel(id: string, loads: bool) returns (model: Option<Model>)
      modifies this
      ensures State() == AfterGet(old(State()), id, loads) && model == Found(old(State()), id, loads)
    {
      if id in models {
        assert models == models[id := models[id]];
        return Some(models[id]);
      }
      model := LoadFromDisk(id, loads);
      if model.Some? {
        models := models[id := model.value];
      }
    }

    method TrainModel(id: string, samples: nat, now: int, outcome: Outcome, loads: bool, save: Save) returns (trained: Option<(nat, int)>)
      modifies this
      ensures State() == AfterTrain(old(State()), id, samples, now, outcome, loads, save) && id in models
      ensures trained == if Succeeds(samples, outcome) then Some((models[id].version, now)) else None
    {
      var model := GetOrCreateModel(id, loads);
      model := AfterFit(model, samples, now, outcome);
      models := models[id := model];
      if !Succeeds(samples, outcome) {
        return None;
      }
      SaveToDisk(id, model, save);
      trained := Some((model.version, now));
    }

    method DeleteModel(id: string) returns (deleted: bool)
      modifies this
      ensures State() == AfterDelete(old(State()), id) && deleted == (id in old(models))
    {
      if id in models {
        models := models - {id};
        if Path(id) in disk {
          disk := disk - {Path(id)};
        }
        assert disk == old(disk) - {Path(id)};
        return true;
      }
      deleted := false;
    }

    /** The endpoint: a container without a model is reported as untrained. */
    method GetModelMeta(id: string, loads: bool) returns (meta: Meta)
      modifies this
      ensures meta == Answer(old(State()), id, loads) && State() == AfterGet(old(State()), id, loads)
    {
      var model := GetModel(id, loads);
      match model
      case Some(m) => meta := MetaOf(m);
      case None => meta := Meta(ModelId(id), id, 0, false, None, None);
    }
  }

  // ---- runs with restarts ----

  datatype Op =
    | Train(id: string, samples: nat, now: int, outcome: Outcome, loads: bool, save: Save)
    | Lookup(id: string, loads: bool)
    | Delete(id: string)
    | Restart

  function Step(s: Registry, op: Op): Registry {
    match op
    case Train(id, samples, now, outcome, loads, save) => AfterTrain(s, id, samples, now, outcome, loads, save)
    case Lookup(id, loads) => AfterGet(s, id, loads)
    case Delete(id) => AfterDelete(s, id)
    case Restart => Restarted(s)
  }

  function Run(ops: seq<Op>): Registry {
    if ops == [] then EMPTY else Step(Run(ops[..|ops| - 1]), ops[|ops| - 1])
  }

  predicate DistinctFiles(ids: set<string>) { forall a, b :: a in ids && b in ids && Path(a) == Path(b) ==> a == b }

  /** Every id is one of `ids`, and every load and save succeeds; a training may fail. */
  predicate HealthyRun(ops: seq<Op>, ids: set<string>) { forall i :: 0 <= i < |ops| ==> HealthyOp(ops[i], ids) }

  predicate HealthyOp(op: Op, ids: set<string>) {
    match op
    case Train(id, _, _, _, loads, save) => id in ids && loads && save.Saved?
    case Lookup(id, loads) => id in ids && loads
    case Delete(id) => id in ids
    case Restart => true
  }

  predicate Healthy(ops: seq<Op>, ids: set<string>) { DistinctFiles(ids) && HealthyRun(ops, ids) }

  /** What a container's successful trainings since its last effective deletion amount to. */
  datatype History = Never | Trained(times: nat, at: int, samples: nat)

  function HistoryOf(ops: seq<Op>, id: string): History {
    if ops == [] then Never
    else
      var n := |ops| - 1;
      var before := HistoryOf(ops[..n], id);
      match ops[n]
      case Train(tid, samples, now, outcome, _, _) =>
        if tid == id && Succeeds(samples, outcome) then Trained(if before.Trained? then before.times + 1 else 1, now, samples) else before
      case Delete(did) => if did == id && id in Run(ops[..n]).models then Never else before
      case Lookup(_, _) => before
      case Restart => before
  }

  function ModelOf(id: string, h: History): Model {
    match h
    case Never => NewModel(id)
    case Trained(times, at, samples) => Model(id, times, Some(at), samples, true, Fit)
  }

  /**
   * The file is exactly the model the history says, and absent for an untrained one; memory is the same, or has lost
   * its forest to a failed fit.
   */
  predicate Reflects(s: Registry, id: string, h: History) {
    && (id in s.models ==> s.models[id] in {ModelOf(id, h), ModelOf(id, h).(forest := Unfit)})
    && (if h.Trained? then Path(id) in s.disk && s.disk[Path(id)] == Whole(ModelOf(id, h)) else Path(id) !in s.disk)
  }

  lemma StepReflects(s: Registry, op: Op, ids: set<string>, id: string, h: History)
    requires DistinctFiles(ids) && HealthyOp(op, ids) && id in ids
    requires Reflects(s, id, h)
    ensures Reflects(Step(s, op), id,
              match op
              case Train(tid, samples, now, outcome, _, _) =>
                if tid == id && Succeeds(samples, outcome) then Trained(if h.Trained? then h.times + 1 else 1, now, samples) else h
              case Delete(did) => if did == id && id in s.models then Never else h
              case Lookup(_, _) => h
              case Restart => h)
  {
    hide Path;
    if !op.Restart? && op.id != id { assert Path(op.id) != Path(id); }
  }

  lemma {:induction false} AlwaysReflects(ops: seq<Op>, ids: set<string>, id: string)
    requires Healthy(ops, ids) && id in ids
    ensures Reflects(Run(ops), id, HistoryOf(ops, id))
  {
    hide Path, Step;
    if ops != [] {
      var n := |ops| - 1;
      AlwaysReflects(ops[..n], ids, id);
      StepReflects(Run(ops[..n]), ops[n], ids, id, HistoryOf(ops[..n], id));
    }
  }

  /**
   * The endpoint's answer is a function of the trainings alone. Restarts and lookups at any points of any run
   * change nothing, and the version is the number of successful trainings since the last effective deletion.
   */
  lemma EndpointFollowsHistory(ops: seq<Op>, ids: set<string>, id: string)
    requires Healthy(ops, ids) && id in ids
    ensures Endpoint(Run(ops), id) == MetaOf(ModelOf(id, HistoryOf(ops, id)))
  {
    hide Path, Replace;
    AlwaysReflects(ops, ids, id);
  }

  /** The answer to each container follows its own history in every run on `ids` with a healthy disk. */
  ghost predicate HistoriesAreFollowed(ids: set<string>) {
    forall ops, id :: HealthyRun(ops, ids) && id in ids ==> Endpoint(Run(ops), id) == MetaOf(ModelOf(id, HistoryOf(ops, id)))
  }

  /** That is so if and only if no two of the ids have one file name. */
  lemma FilesDistinctIff(ids: set<string>)
    ensures HistoriesAreFollowed(ids) <==> DistinctFiles(ids)
  {
    hide Path, Replace, Run, HistoryOf, HealthyRun, Endpoint;
    if DistinctFiles(ids) {
      forall ops, id | HealthyRun(ops, ids) && id in ids
        ensures Endpoint(Run(ops), id) == MetaOf(ModelOf(id, HistoryOf(ops, id)))
      {
        EndpointFollowsHistory(ops, ids, id);
      }
    } else {
      var a, b :| a in ids && b in ids && Path(a) == Path(b) && a != b;
      var ops := [Train(a, MIN_SAMPLES, 0, Fits, true, Saved)];
      SharedFileAnswersForBoth(a, b, ids, ops);
    }
  }

  lemma SharedFileAnswersForBoth(a: string, b: string, ids: set<string>, ops: seq<Op>)
    requires a in ids && a != b && Path(a) == Path(b) && ops == [Train(a, MIN_SAMPLES, 0, Fits, true, Saved)]
    ensures HealthyRun(ops, ids) && Endpoint(Run(ops), b) != MetaOf(ModelOf(b, HistoryOf(ops, b)))
  {
    hide Path, Replace;
    assert ops[..0] == [] && Run(ops[..0]) == EMPTY && HistoryOf(ops[..0], b) == Never;
    assert Run(ops) == AfterTrain(EMPTY, a, MIN_SAMPLES, 0, Fits, true, Saved);
    assert Endpoint(Run(ops), b).containerId == a;
    assert HistoryOf(ops, b) == Never;
  }

  /** Restart transparency: dropping memory at any point leaves every container's answer as it was. */
  lemma RestartIsTransparent(ops: seq<Op>, ids: set<string>, id: string)
    requires Healthy(ops, ids) && id in ids
    ensures Endpoint(Restarted(Run(ops)), id) == Endpoint(Run(ops), id)
  {
    hide Path, Replace;
    AlwaysReflects(ops, ids, id);
  }

  /** Successive trainings return versions 1, 2, 3, ... across restarts, until a deletion starts again at 1. */
  lemma TrainingCountsUp(ops: seq<Op>, ids: set<string>, id: string, samples: nat, now: int)
    requires Healthy(ops, ids) && id in ids && samples >= MIN_SAMPLES
    ensures var h := HistoryOf(ops, id);
            AfterTrain(Run(ops), id, samples, now, Fits, true, Saved).models[id].version == (if h.Trained? then h.times else 0) + 1
  {
    hide Path;
    AlwaysReflects(ops, ids, id);
  }

  /** Deletion is where a restart shows: it finds a model just restarted over only if that had no file to come back from. */
  lemma DeleteAfterRestartIff(ops: seq<Op>, ids: set<string>, id: string)
    requires Healthy(ops, ids) && id in ids
    ensures Endpoint(AfterDelete(Restarted(Run(ops)), id), id) == Endpoint(AfterDelete(Run(ops), id), id)
            <==> id !in Run(ops).models || Path(id) !in Run(ops).disk
  {
    hide Path, Replace;
    AlwaysReflects(ops, ids, id);
  }

  /**
   * At any point of any run, a training survives a restart that follows if and only if its save succeeds; a save that
   * did not open the file leaves the model before it, one interrupted leaves none.
   */
  lemma UnsavedTrainingIsForgotten(ops: seq<Op>, ids: set<string>, id: string, samples: nat, now: int, save: Save)
    requires Healthy(ops, ids) && id in ids && samples >= MIN_SAMPLES
    ensures var s, h := AfterTrain(Run(ops), id, samples, now, Fits, true, save), HistoryOf(ops, id);
            && Endpoint(s, id).version == (if h.Trained? then h.times else 0) + 1
            && (Endpoint(Restarted(s), id) == Endpoint(s, id) <==> save.Saved?)
            && (save.Unopened? ==> Endpoint(Restarted(s), id) == Endpoint(Run(ops), id))
            && (save.Interrupted? ==> Endpoint(Restarted(s), id).version == 0 && !Endpoint(Restarted(s), id).ready)
  {
    hide Path, Replace;
    AlwaysReflects(ops, ids, id);
  }

  /** A successful training of `id`, its deletion, or a restart. */
  predicate Cures(op: Op, id: string) {
    match op
    case Train(tid, samples, _, outcome, _, _) => tid == id && Succeeds(samples, outcome)
    case Lookup(_, _) => false
    case Delete(did) => did == id
    case Restart => true
  }

  lemma StepWithoutCure(s: Registry, op: Op, id: string, m: Model)
    requires id in s.models && s.models[id] == m && m.forest.Unfit? && !Cures(op, id)
    ensures id in Step(s, op).models && Step(s, op).models[id] == m
  {
    hide Path;
  }

  lemma {:induction false} WithoutCure(ops: seq<Op>, more: seq<Op>, id: string, m: Model)
    requires id in Run(ops).models && Run(ops).models[id] == m && m.forest.Unfit?
    requires forall i :: 0 <= i < |more| ==> !Cures(more[i], id)
    ensures id in Run(ops + more).models && Run(ops + more).models[id] == m
  {
    hide Step;
    if more == [] {
      assert ops + more == ops;
    } else {
      var n := |more| - 1;
      WithoutCure(ops, more[..n], id, m);
      assert (ops + more)[..|ops + more| - 1] == ops + more[..n];
      StepWithoutCure(Run(ops + more[..n]), more[n], id, m);
    }
  }

  /**
   * A fit that raises leaves the answer as it was, and if the model had been trained before, every score raises from
   * then on, although the answer still says ready: however the run goes on, until a restart, a deletion or a
   * successful training. Such a training cures it, and so does a restart while saves and loads succeed.
   */
  lemma FailedRefitBreaksScoring(ops: seq<Op>, more: seq<Op>, ids: set<string>, id: string, samples: nat, now: int,
                                 sample: real, threshold: real)
    requires Healthy(ops, ids) && id in ids && samples >= MIN_SAMPLES
    requires forall i :: 0 <= i < |more| ==> !Cures(more[i], id)
    ensures var s, h := Run(ops + [Train(id, samples, now, FitRaises, true, Saved)] + more), HistoryOf(ops, id);
            && Endpoint(s, id) == Endpoint(Run(ops), id) && Endpoint(s, id).ready == h.Trained? && id in s.models
            && (ScoreOf(s.models[id], sample, threshold) == None <==> h.Trained?)
            && (forall n: nat, at, loads, save | n >= MIN_SAMPLES ::
                 ScoreOf(AfterTrain(s, id, n, at, Fits, loads, save).models[id], sample, threshold) != None)
            && (h.Trained? && HealthyRun(more, ids) ==>
                 Found(Restarted(s), id, true).Some? &&
                 ScoreOf(Found(Restarted(s), id, true).value, sample, threshold) == Some((sample, sample < threshold)))
  {
    hide Path, Replace, HealthyRun, ModelId;
    var failing := Train(id, samples, now, FitRaises, true, Saved);
    var failed := ops + [failing];
    AlwaysReflects(ops, ids, id);
    assert failed[..|failed| - 1] == ops;
    WithoutCure(failed, more, id, Run(failed).models[id]);
    if HealthyRun(more, ids) {
      HealthyConcat(ops, failing, more, ids);
      HistoryWithoutCure(ops, failing, more, id);
      AlwaysReflects(failed + more, ids, id);
    }
  }

  lemma HealthyConcat(ops: seq<Op>, op: Op, more: seq<Op>, ids: set<string>)
    requires HealthyRun(ops, ids) && HealthyOp(op, ids) && HealthyRun(more, ids)
    ensures HealthyRun(ops + [op] + more, ids)
  {
  }

  lemma {:induction false} HistoryWithoutCure(ops: seq<Op>, op: Op, more: seq<Op>, id: string)
    requires !Cures(op, id) && forall i :: 0 <= i < |more| ==> !Cures(more[i], id)
    ensures HistoryOf(ops + [op] + more, id) == HistoryOf(ops, id)
  {
    hide Run;
    if more == [] {
      assert ops + [op] + more == ops + [op] && (ops + [op])[..|ops|] == ops;
    } else {
      var n := |more| - 1;
      HistoryWithoutCure(ops, op, more[..n], id);
      assert (ops + [op] + more)[..|ops + [op] + more| - 1] == ops + [op] + more[..n];
      assert !Cures(more[n], id);
    }
  }

  /** Two ids can share a file: then a restart answers one container with the other's model. */
  lemma SharedFileMixesContainers(samples: nat, now: int)
    requires samples >= MIN_SAMPLES
    ensures Path("a/b") == Path("a_b")
    ensures Endpoint(Restarted(AfterTrain(EMPTY, "a/b", samples, now, Fits, true, Saved)), "a_b").containerId == "a/b"
  {
    assert Replace("a/b", '/', '_') == "a_b" by { ReplaceThree('a', '/', 'b', '/', '_'); }
    assert Replace("a_b", '/', '_') == "a_b" by { ReplaceThree('a', '_', 'b', '/', '_'); }
    assert Path("a/b") == Path("a_b");
    hide Path, Replace;
  }

  lemma ReplaceThree(x: char, y: char, z: char, a: char, b: char)
    ensures Replace([x, y, z], a, b) == [if x == a then b else x, if y == a then b else y, if z == a then b else z]
  {
    assert [x, y, z][1..] == [y, z] && [y, z][1..] == [z] && [z][1..] == [];
    assert Replace([], a, b) == [];
    assert Replace([z], a, b) == [if z == a then b else z];
    assert Replace([y, z], a, b) == [if y == a then b else y, if z == a then b else z];
  }

  // ---- the answers, spelled out ----

  lemma {:induction false} ReplaceIs(s: string, a: char, b: char)
    ensures |Replace(s, a, b)| == |s|
    ensures forall i :: 0 <= i < |s| ==> Replace(s, a, b)[i] == if s[i] == a then b else s[i]
  {
    if s != [] { ReplaceIs(s[1..], a, b); }
  }

  /** The two separators and the underscore, which a file name does not tell apart. */
  predicate Alike(x: char, y: char) { x == y || (x in {'/', '\\', '_'} && y in {'/', '\\', '_'}) }

  /** Two ids share a file exactly if they differ only in slashes, backslashes and underscores. */
  lemma PathsCollideIff(a: string, b: string)
    ensures Path(a) == Path(b) <==> |a| == |b| && forall i :: 0 <= i < |a| && i < |b| ==> Alike(a[i], b[i])
  {
    hide Replace;
    PathIs(a);
    PathIs(b);
    if |a| == |b| && forall i :: 0 <= i < |a| && i < |b| ==> Alike(a[i], b[i]) {
      assert Path(a)[..|a|] == Path(b)[..|b|];
      assert Path(a) == Path(a)[..|a|] + ".pkl" && Path(b) == Path(b)[..|b|] + ".pkl";
    }
    if Path(a) == Path(b) {
      forall i | 0 <= i < |a| && i < |b| ensures Alike(a[i], b[i]) { assert Path(a)[i] == Path(b)[i]; }
    }
  }

  /** A file is named by its id, with both separators turned into underscores. */
  lemma PathIs(id: string)
    ensures var p := Path(id);
            |p| == |id| + 4 && p[|id|..] == ".pkl" && forall i :: 0 <= i < |id| ==> p[i] == if id[i] in {'/', '\\'} then '_' else id[i]
  {
    ReplaceIs(id, '/', '_');
    ReplaceIs(Replace(id, '/', '_'), '\\', '_');
  }

  /**
   * The endpoint, field by field: after any run with a healthy disk it names the model after the container, with
   * slashes turned into dashes, and gives the number, time and size of the successful trainings since the last
   * effective deletion, ready; or version 0, not ready, if there is none.
   */
  lemma EndpointAnswers(ops: seq<Op>, ids: set<string>, id: string)
    requires Healthy(ops, ids) && id in ids
    ensures var m, h := Endpoint(Run(ops), id), HistoryOf(ops, id);
            && m.containerId == id && |m.modelId| == |id| + 6 && m.modelId[..6] == "model-"
            && (forall i :: 0 <= i < |id| ==> m.modelId[6 + i] == if id[i] == '/' then '-' else id[i])
            && (match h
                case Never => m.version == 0 && !m.ready && m.trainedAt == None && m.sampleCount == None
                case Trained(times, at, samples) =>
                  m.version == times && m.ready && m.trainedAt == Some(at) && m.sampleCount == Some(samples))
  {
    hide Run, HistoryOf, Path, Replace, Endpoint;
    ReplaceIs(id, '/', '-');
    EndpointFollowsHistory(ops, ids, id);
  }

  /**
   * What a model scores: neutral until the container's first successful training; then the sample's score, called
   * anomalous below the threshold, unless a failed fit has left it without a forest.
   */
  lemma ScoreFollowsHistory(ops: seq<Op>, ids: set<string>, id: string, sample: real, threshold: real)
    requires Healthy(ops, ids) && id in ids && Found(Run(ops), id, true).Some?
    ensures var m, h := Found(Run(ops), id, true).value, HistoryOf(ops, id);
            && (h == Never ==> ScoreOf(m, sample, threshold) == Some((0.0, false)))
            && (h.Trained? ==> ScoreOf(m, sample, threshold) == if m.forest == Unfit then None else Some((sample, sample < threshold)))
            && (h.Trained? && id !in Run(ops).models ==> m.forest == Fit)
  {
    hide Run, HistoryOf, Path;
    AlwaysReflects(ops, ids, id);
  }

  /** Ten samples are enough to train, nine are not. */
  lemma TenSamples(samples: nat, outcome: Outcome)
    ensures Succeeds(samples, outcome) <==> samples >= 10 && outcome == Fits
  {
  }

  /** Deleting just after a restart does nothing, but a lookup in between makes it take the model and its file. */
  lemma LookupMakesDeletable(ops: seq<Op>, ids: set<string>, id: string)
    requires Healthy(ops, ids) && id in ids && HistoryOf(ops, id).Trained?
    ensures AfterDelete(Restarted(Run(ops)), id) == Restarted(Run(ops))
    ensures var s := AfterDelete(AfterGet(Restarted(Run(ops)), id, true), id);
            id !in s.models && Path(id) !in s.disk && Endpoint(s, id).version == 0 && !Endpoint(s, id).ready
  {
    hide Path, Replace, Run;
    AlwaysReflects(ops, ids, id);
  }

  /** The score of a model with a forest where it should have one is the remote engine's. */
  lemma RemoteScoreIsScoreOf(m: Model, sample: real, threshold: real)
    requires m.isFitted <==> m.forest.Fit?
    ensures var s := Triage.RemoteScore(m.isFitted, sample, threshold);
            ScoreOf(m, sample, threshold) == Some((s.score, s.anomalous))
  {
  }
}
