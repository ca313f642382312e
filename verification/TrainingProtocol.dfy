/** Server, agent and the network between them: a completion notice may be lost, late or overtaken, but not doubled. */
module TrainingProtocol {
  import opened Common
  import opened Widths
  import opened Trace
  import opened AgentSpec
  import opened AgentRuns
  import opened DumpRuns
  import T = Training
  import C = ConcurrentTraining

  /** A dump request as the agent receives it. */
  datatype DumpRequest = DumpRequest(durationSec: int, path: string, fileOpens: bool, clockNs: u64)

  datatype Action =
    /** The server starts a training; `arrived` is whether its dump request reaches the agent at once. */
    | Start(c: ContainerId, remote: Option<T.ModelMeta>, now: int, arrived: bool, request: DumpRequest)
    /** The `id`-th start hears from the agent, or sees an exception. */
    | Answer(id: nat, threw: bool)
    /** A kernel event, or a dump request that comes late or from someone else. */
    | AtAgent(input: Input)
    /** The `i`-th completion notice of a container reaches the server. */
    | Deliver(c: ContainerId, i: nat)
    | Query(c: ContainerId, remote: Option<T.ModelMeta>, now: int)

  datatype World = World(system: C.System, agent: State, delivered: set<(ContainerId, nat)>) {
    function Server(): T.Server { system.server }
  }

  const START := World(C.START, INITIAL, {})

  function AgentInput(a: Action): seq<Input> {
    match a
    case Start(c, _, _, arrived, q) => if arrived then [Request(c, q.durationSec, q.path, q.fileOpens, q.clockNs)] else []
    case Answer(_, _) => []
    case AtAgent(input) => [input]
    case Deliver(_, _) => []
    case Query(_, _, _) => []
  }

  predicate Deliverable(w: World, c: ContainerId, i: nat) { i < |LogOf(w.agent, c).notices| && (c, i) !in w.delivered }

  function Act(cfg: Config, w: World, a: Action): World {
    match a
    case Start(c, remote, now, arrived, _) =>
      w.(system := C.Act(w.system, C.Begin(c, remote, now)),
         agent := if arrived then Step(cfg, w.agent, AgentInput(a)[0]) else w.agent)
    case Answer(id, threw) => w.(system := C.Act(w.system, C.Answer(id, threw)))
    case AtAgent(input) => w.(agent := Step(cfg, w.agent, input))
    case Deliver(c, i) =>
      if Deliverable(w, c, i) then w.(system := C.Act(w.system, C.Complete(c)), delivered := w.delivered + {(c, i)}) else w
    case Query(c, remote, now) => w.(system := C.Act(w.system, C.Query(c, remote, now)))
  }

  function Play(cfg: Config, actions: seq<Action>): World {
    if actions == [] then START else Act(cfg, Play(cfg, actions[..|actions| - 1]), actions[|actions| - 1])
  }

  function AgentInputs(actions: seq<Action>): seq<Input> {
    if actions == [] then [] else AgentInputs(actions[..|actions| - 1]) + AgentInput(actions[|actions| - 1])
  }

  /** The agent in the world makes an ordinary run of its own. */
  lemma {:induction false} AgentRunsAlone(cfg: Config, actions: seq<Action>)
    ensures Play(cfg, actions).agent == Run(cfg, AgentInputs(actions))
  {
    hide Step, C.Act;
    if actions != [] {
      var n := |actions| - 1;
      var before, here := AgentInputs(actions[..n]), AgentInput(actions[n]);
      AgentRunsAlone(cfg, actions[..n]);
      if here != [] {
        assert (before + here)[..|before|] == before && (before + here)[|before|] == here[0];
      } else {
        assert before + here == before;
      }
    }
  }

  // ---- from TRAINING to READY ----

  /** Some version of `c` that was in training is ready. */
  ghost predicate BecomesReady(s: T.Server, t: T.Server, c: ContainerId) {
    exists p :: TurnsReady(T.ListOf(s.versions, c), T.ListOf(t.versions, c), p)
  }

  predicate TurnsReady(a: seq<T.ModelVersion>, b: seq<T.ModelVersion>, p: int) {
    0 <= p < |a| && p < |b| && a[p].version == b[p].version && a[p].status == T.TRAINING && b[p].status == T.READY
  }

  /** What a step asks of the server. */
  function ServerAction(w: World, a: Action): Option<C.Action> {
    match a
    case Start(c, remote, now, _, _) => Some(C.Begin(c, remote, now))
    case Answer(id, threw) => Some(C.Answer(id, threw))
    case AtAgent(_) => None
    case Deliver(c, i) => if Deliverable(w, c, i) then Some(C.Complete(c)) else None
    case Query(c, remote, now) => Some(C.Query(c, remote, now))
  }

  lemma ServerActs(cfg: Config, w: World, a: Action)
    ensures Act(cfg, w, a).system == match ServerAction(w, a) case Some(b) => C.Act(w.system, b) case None => w.system
  {
    hide Step, C.Act;
  }

  lemma {:induction false} ServerAlwaysSound(cfg: Config, actions: seq<Action>, c: ContainerId)
    ensures T.Sound(Play(cfg, actions).Server(), c)
  {
    hide T.Sound, Act, C.Act, ServerAction;
    if actions == [] {
      T.AlwaysSound([], c);
    } else {
      var w, a := Play(cfg, actions[..|actions| - 1]), actions[|actions| - 1];
      ServerAlwaysSound(cfg, actions[..|actions| - 1], c);
      ServerActs(cfg, w, a);
      if ServerAction(w, a).Some? { C.ActKeepsSound(w.system, ServerAction(w, a).value, c); }
    }
  }

  /** Without a completion of a pending job, entries of `c` are only added or removed at the end. */
  lemma OnlyCompletionsChangeEntries(y: C.System, a: C.Action, c: ContainerId)
    requires T.Sound(y.server, c) && !(C.Completes(a, c) && c in y.server.jobs)
    ensures C.EntriesOf(y, c) <= C.EntriesOf(C.Act(y, a), c) || C.EntriesOf(C.Act(y, a), c) <= C.EntriesOf(y, c)
  {
    hide C.Act, T.Synced, T.Sound, T.ListOf;
    C.ActAtContainer(y, a, c);
    C.SyncAddsOne(y.server, c);
  }

  /** Nothing but the delivery of an undelivered notice of `c`, with a job of `c` pending, makes a version of `c` ready. */
  lemma ReadyNeedsNotice(cfg: Config, w: World, a: Action, c: ContainerId)
    requires T.Sound(w.Server(), c) && BecomesReady(w.Server(), Act(cfg, w, a).Server(), c)
    ensures a.Deliver? && a.c == c && Deliverable(w, c, a.i) && c in w.Server().jobs
  {
    hide Act, C.Act, LogOf, T.Sound;
    ServerActs(cfg, w, a);
    if ServerAction(w, a).Some? && !(C.Completes(ServerAction(w, a).value, c) && c in w.Server().jobs) {
      OnlyCompletionsChangeEntries(w.system, ServerAction(w, a).value, c);
    }
  }

  /** How often a version of `c` turned ready in a run. */
  ghost function ReadyCount(cfg: Config, actions: seq<Action>, c: ContainerId): nat {
    if actions == [] then 0
    else
      var n := |actions| - 1;
      ReadyCount(cfg, actions[..n], c) +
      Bit(BecomesReady(Play(cfg, actions[..n]).Server(), Play(cfg, actions).Server(), c))
  }

  /** The numbers of the notices that did it. */
  ghost function Backing(cfg: Config, actions: seq<Action>, c: ContainerId): set<nat> {
    if actions == [] then {}
    else
      var n := |actions| - 1;
      Backing(cfg, actions[..n], c) +
      if actions[n].Deliver? && BecomesReady(Play(cfg, actions[..n]).Server(), Play(cfg, actions).Server(), c)
      then {actions[n].i} else {}
  }

  lemma StepKeepsNotices(cfg: Config, w: World, a: Action, c: ContainerId)
    ensures |LogOf(w.agent, c).notices| <= |LogOf(Act(cfg, w, a).agent, c).notices|
    ensures w.delivered <= Act(cfg, w, a).delivered
  {
    hide Step, C.Act;
    if AgentInput(a) != [] { StepOnlyAppends(cfg, w.agent, AgentInput(a)[0], c); }
  }

  /**
   * In every run, whatever is lost, delayed or reordered: each time a version of `c` turns ready, that is backed by
   * a dump of `c` which the agent has closed and announced, and no dump backs two of them.
   */
  lemma {:induction false} EachReadyHasItsDump(cfg: Config, actions: seq<Action>, c: ContainerId)
    ensures |Backing(cfg, actions, c)| == ReadyCount(cfg, actions, c)
    ensures forall i <- Backing(cfg, actions, c) ::
              i < |LogOf(Play(cfg, actions).agent, c).notices| && (c, i) in Play(cfg, actions).delivered
  {
    hide Step, C.Act, T.Sound, BecomesReady, LogOf;
    if actions != [] {
      var n := |actions| - 1;
      var w, a := Play(cfg, actions[..n]), actions[n];
      EachReadyHasItsDump(cfg, actions[..n], c);
      StepKeepsNotices(cfg, w, a, c);
      if BecomesReady(w.Server(), Play(cfg, actions).Server(), c) {
        ServerAlwaysSound(cfg, actions[..n], c);
        ReadyNeedsNotice(cfg, w, a, c);
      }
    }
  }

  lemma {:induction false} BoundedSet(s: set<nat>, n: nat)
    requires forall i <- s :: i < n
    ensures |s| <= n
  {
    if n == 0 {
      assert s == {};
    } else {
      BoundedSet(s - {n - 1}, n - 1);
    }
  }

  /** So models turn ready at most as often as the container's dumps have been closed, and those as often as begun. */
  lemma ReadyAtMostDumps(cfg: Config, actions: seq<Action>, c: ContainerId)
    ensures ReadyCount(cfg, actions, c) <= |LogOf(Play(cfg, actions).agent, c).files| <= Begun(cfg, AgentInputs(actions), c)
  {
    hide Step, Act;
    EachReadyHasItsDump(cfg, actions, c);
    AgentRunsAlone(cfg, actions);
    OneNoticePerDump(cfg, AgentInputs(actions), c);
    BoundedSet(Backing(cfg, actions, c), |LogOf(Play(cfg, actions).agent, c).notices|);
  }

  // ---- whose dump was it? ----

  lemma {:induction false} ActionsContinue(cfg: Config, actions: seq<Action>, more: seq<Action>, c: ContainerId)
    ensures |LogOf(Play(cfg, actions).agent, c).notices| <= |LogOf(Play(cfg, actions + more).agent, c).notices|
    ensures Play(cfg, actions).delivered <= Play(cfg, actions + more).delivered
  {
    hide Act, LogOf;
    if more == [] {
      assert actions + more == actions;
    } else {
      var n := |more| - 1;
      ActionsContinue(cfg, actions, more[..n], c);
      assert (actions + more)[..|actions + more| - 1] == actions + more[..n];
      StepKeepsNotices(cfg, Play(cfg, actions + more[..n]), more[n], c);
    }
  }

  lemma PlaySnoc(cfg: Config, actions: seq<Action>, a: Action)
    ensures Play(cfg, actions + [a]) == Act(cfg, Play(cfg, actions), a)
  {
    assert (actions + [a])[..|actions|] == actions;
  }

  lemma {:induction false} DeliveredWereSent(cfg: Config, actions: seq<Action>, c: ContainerId)
    ensures forall i :: (c, i) in Play(cfg, actions).delivered ==> i < |LogOf(Play(cfg, actions).agent, c).notices|
  {
    hide Step, C.Act, LogOf;
    if actions != [] {
      var n := |actions| - 1;
      DeliveredWereSent(cfg, actions[..n], c);
      StepKeepsNotices(cfg, Play(cfg, actions[..n]), actions[n], c);
    }
  }

  /** With a job pending, any notice still undelivered makes the version ready when it comes. */
  lemma DeliveryMakesReady(cfg: Config, w: World, c: ContainerId, i: nat)
    requires T.Sound(w.Server(), c) && c in w.Server().jobs && Deliverable(w, c, i)
    ensures BecomesReady(w.Server(), Act(cfg, w, Deliver(c, i)).Server(), c)
  {
    hide Step, LogOf;
    T.CompletionMakesReady(w.Server(), c);
    var list := T.ListOf(w.Server().versions, c);
    assert TurnsReady(list, T.ListOf(Act(cfg, w, Deliver(c, i)).Server().versions, c), |list| - 1);
  }

  /** Continued with `more`, the run delivers the `i`-th notice of `c`, and that makes a version of `c` ready. */
  ghost predicate ReadyOn(cfg: Config, actions: seq<Action>, more: seq<Action>, c: ContainerId, i: nat) {
    BecomesReady(Play(cfg, actions + more).Server(), Play(cfg, actions + more + [Deliver(c, i)]).Server(), c)
  }

  /** The first `b` notices of `c` have been sent and delivered. */
  predicate AllDelivered(w: World, c: ContainerId, b: nat) {
    b <= |LogOf(w.agent, c).notices| && forall i :: 0 <= i < b ==> (c, i) in w.delivered
  }

  /** The shortest way to one more notice of `c`: a dump request, and an event at the very end of what is open then. */
  function OneMoreNotice(cfg: Config, s: State, c: ContainerId): seq<Input> {
    var request := Request(c, 0, "f", true, 0);
    [request, Kernel(c, true, Event(BufferOf(Step(cfg, s, request), c).longDumpEndTsNs, 0, 0, 0))]
  }

  lemma OneMoreNoticeComes(cfg: Config, s: State, c: ContainerId)
    ensures var ins := OneMoreNotice(cfg, s, c);
            |LogOf(Step(cfg, Step(cfg, s, ins[0]), ins[1]), c).notices| == |LogOf(s, c).notices| + 1
  {
    var ins := OneMoreNotice(cfg, s, c);
    hide Step;
    var t := Step(cfg, s, ins[0]);
    StepAtContainer(cfg, s, ins[0], c);
    StepAtContainer(cfg, t, ins[1], c);
    TakeDumps(cfg, SlotOf(t, c), ins[1].event);
  }

  /** So whatever `b` is, a pending training can turn ready on a notice numbered below it unless all those are delivered. */
  lemma EarlierNoticeCompletes(cfg: Config, actions: seq<Action>, c: ContainerId, b: nat)
    requires c in Play(cfg, actions).Server().jobs && !AllDelivered(Play(cfg, actions), c, b)
    ensures exists more, i: nat :: i < b && ReadyOn(cfg, actions, more, c, i)
  {
    hide Step, LogOf, T.Sound, BecomesReady;
    var w := Play(cfg, actions);
    ServerAlwaysSound(cfg, actions, c);
    if b <= |LogOf(w.agent, c).notices| {
      var i: nat :| i < b && (c, i) !in w.delivered;
      DeliveryMakesReady(cfg, w, c, i);
      PlaySnoc(cfg, actions, Deliver(c, i));
      assert actions + [] == actions;
      assert ReadyOn(cfg, actions, [], c, i);
    } else {
      var ins, i := OneMoreNotice(cfg, w.agent, c), |LogOf(w.agent, c).notices|;
      var more := [AtAgent(ins[0]), AtAgent(ins[1])];
      OneMoreNoticeComes(cfg, w.agent, c);
      PlaySnoc(cfg, actions, more[0]);
      PlaySnoc(cfg, actions + [more[0]], more[1]);
      assert actions + [more[0]] + [more[1]] == actions + more;
      DeliveredWereSent(cfg, actions, c);
      DeliveryMakesReady(cfg, Play(cfg, actions + more), c, i);
      PlaySnoc(cfg, actions + more, Deliver(c, i));
      assert ReadyOn(cfg, actions, more, c, i);
    }
  }

  lemma OnlyUndeliveredComplete(cfg: Config, actions: seq<Action>, more: seq<Action>, c: ContainerId, i: nat)
    requires ReadyOn(cfg, actions, more, c, i)
    ensures (c, i) !in Play(cfg, actions).delivered
  {
    hide Act, LogOf, T.Sound, BecomesReady;
    ServerAlwaysSound(cfg, actions + more, c);
    PlaySnoc(cfg, actions + more, Deliver(c, i));
    ReadyNeedsNotice(cfg, Play(cfg, actions + more), Deliver(c, i), c);
    ActionsContinue(cfg, actions, more, c);
  }

  /**
   * Which notices can complete a pending training. However a run goes on, what makes `c` ready is a notice numbered
   * `b` or more if and only if the first `b` notices have already been delivered.
   */
  lemma ReadyFromIff(cfg: Config, actions: seq<Action>, c: ContainerId, b: nat)
    requires c in Play(cfg, actions).Server().jobs
    ensures (forall more, i: nat :: ReadyOn(cfg, actions, more, c, i) ==> b <= i) <==> AllDelivered(Play(cfg, actions), c, b)
  {
    hide Play, LogOf, ReadyOn;
    if AllDelivered(Play(cfg, actions), c, b) {
      forall more, i: nat | ReadyOn(cfg, actions, more, c, i) ensures b <= i {
        OnlyUndeliveredComplete(cfg, actions, more, c, i);
      }
    } else {
      EarlierNoticeCompletes(cfg, actions, c, b);
    }
  }

  /** The number of the next dump of `c` to begin. */
  function NextDump(w: World, c: ContainerId): nat { |LogOf(w.agent, c).notices| + Bit(Dumping(w.agent, c)) }

  /** No dump of `c` is open, and every notice of one has been delivered. */
  predicate Settled(w: World, c: ContainerId) {
    !Dumping(w.agent, c) && forall i :: 0 <= i < |LogOf(w.agent, c).notices| ==> (c, i) in w.delivered
  }

  /** From any world with a pending training on, it takes a dump begun later to complete it if and only if all is settled. */
  lemma ReadyOnLaterDumpIff(cfg: Config, actions: seq<Action>, c: ContainerId)
    requires c in Play(cfg, actions).Server().jobs
    ensures (forall more, i: nat :: ReadyOn(cfg, actions, more, c, i) ==> NextDump(Play(cfg, actions), c) <= i)
            <==> Settled(Play(cfg, actions), c)
  {
    hide Play, LogOf, ReadyOn, Dumping;
    ReadyFromIff(cfg, actions, c, NextDump(Play(cfg, actions), c));
  }

  /**
   * Whether a version turns ready on its own training's dump. After a start, whatever becomes of its
   * request and however the run goes on, the notice that makes `c` ready is that of a dump begun with the start or
   * later if and only if before the start no dump of `c` was open and every notice of one had been delivered.
   */
  lemma OwnDumpIff(cfg: Config, actions: seq<Action>, c: ContainerId, remote: Option<T.ModelMeta>, now: int,
                   arrived: bool, q: DumpRequest)
    ensures var before, started := Play(cfg, actions), actions + [Start(c, remote, now, arrived, q)];
            (forall more, i: nat :: ReadyOn(cfg, started, more, c, i) ==> NextDump(before, c) <= i) <==> Settled(before, c)
  {
    hide Play, Step, LogOf, ReadyOn, Dumping;
    var w, a := Play(cfg, actions), Start(c, remote, now, arrived, q);
    PlaySnoc(cfg, actions, a);
    if arrived { RequestsCloseNothing(cfg, w.agent, AgentInput(a)[0], c); }
    ReadyFromIff(cfg, actions + [a], c, NextDump(w, c));
  }

  /** A start whose request arrives, while no dump of the container is open, opens just the dump it asks for. */
  lemma StartOpensItsDump(cfg: Config, actions: seq<Action>, c: ContainerId, remote: Option<T.ModelMeta>, now: int, q: DumpRequest)
    requires q.fileOpens && !Dumping(Play(cfg, actions).agent, c)
    ensures var after := Play(cfg, actions + [Start(c, remote, now, true, q)]); var b := BufferOf(after.agent, c);
            && Dumping(after.agent, c) && b.longDumpFilePath == q.path && b.longDumpDurationSec == q.durationSec
            && b.longDumpStream.Open? && b.longDumpStream.good && b.longDumpStream.path == q.path
            && (BufferOf(Play(cfg, actions).agent, c).lastEventTsNs == 0 ==> b.longDumpStartTsNs == q.clockNs)
  {
    hide Play, Step, C.Act;
    var w, a := Play(cfg, actions), Start(c, remote, now, true, q);
    PlaySnoc(cfg, actions, a);
    StepAtContainer(cfg, w.agent, AgentInput(a)[0], c);
    AgentRunsAlone(cfg, actions);
    OneNoticePerDump(cfg, AgentInputs(actions), c);
  }

  lemma RequestsCloseNothing(cfg: Config, s: State, input: Input, c: ContainerId)
    requires input.Request?
    ensures LogOf(Step(cfg, s, input), c).notices == LogOf(s, c).notices
  {
    StepAtContainer(cfg, s, input, c);
  }

  /** A dump someone else asked for, closed and announced, its notice still on the way. */
  function EarlierDump(c: ContainerId, other: ContainerId): seq<Action> {
    [AtAgent(Request(c, 10, "f", true, NS_PER_SEC)),
     AtAgent(Kernel(other, true, Event(20 * NS_PER_SEC, 0, 0, 0))),
     AtAgent(Kernel(c, true, Event(9 * NS_PER_SEC, 1, 0, 0)))]
  }

  lemma EarlierDumpIsUndelivered(cfg: Config, c: ContainerId, other: ContainerId)
    requires c != other
    ensures Deliverable(Play(cfg, EarlierDump(c, other)), c, 0)
  {
    hide Step, EndsAt, Image, EventsOf, Inside, Play, Run, AgentInputs;
    var a := EarlierDump(c, other);
    var ins := [a[0].input, a[1].input, a[2].input];
    OnlyInputs(cfg, a, ins);
    OtherContainerClosesEarly(cfg, c, other);
    DumpFileContents(cfg, ins, 0, 1, Dump.Dump(c, "f", NS_PER_SEC, 10, NEW_LOG, None));
  }

  lemma {:induction false} OnlyInputs(cfg: Config, actions: seq<Action>, ins: seq<Input>)
    requires |ins| == |actions| && forall i :: 0 <= i < |actions| ==> actions[i] == AtAgent(ins[i])
    ensures Play(cfg, actions).agent == Run(cfg, ins) && Play(cfg, actions).delivered == {}
  {
    hide Step;
    if actions != [] { OnlyInputs(cfg, actions[..|actions| - 1], ins[..|ins| - 1]); }
  }

  /**
   * A start that finds things unsettled: in this run the training's own request never reaches the agent, and the
   * model turns ready on the late notice of a dump that ended before the training began.
   */
  lemma ReadyOnAnEarlierDump(cfg: Config, c: ContainerId, other: ContainerId, q: DumpRequest)
    requires c != other
    ensures var before := EarlierDump(c, other) + [Start(c, None, 0, false, q)];
            && Play(cfg, before).agent == Play(cfg, EarlierDump(c, other)).agent
            && BecomesReady(Play(cfg, before).Server(), Play(cfg, before + [Deliver(c, 0)]).Server(), c)
  {
    hide Step, LogOf;
    var e := EarlierDump(c, other);
    EarlierDumpIsUndelivered(cfg, c, other);
    var before := e + [Start(c, None, 0, false, q)];
    PlaySnoc(cfg, e, Start(c, None, 0, false, q));
    ServerAlwaysSound(cfg, before, c);
    DeliveryMakesReady(cfg, Play(cfg, before), c, 0);
    PlaySnoc(cfg, before, Deliver(c, 0));
  }
}
