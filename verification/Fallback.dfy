/** The adapter that prefers the remote ML service and falls back to the in-process one. */
module Fallback {
  import opened Common
  import opened Trace
  import Scoring
  import Training

  const HEALTH_CHECK_INTERVAL_MS := 300_000

  /** What a remote call gives: an answer or an exception. */
  datatype Answer<T> = Got(value: T) | Raised

  /** What one call may read: the clock, again the clock if it checks health, and the health check's outcome. */
  datatype Reads = Reads(nowMs: int, checkMs: int, health: Answer<bool>)

  datatype Adapter = Adapter(preferRemote: bool, remoteAvailable: bool, lastHealthCheck: int)

  function IsUp(health: Answer<bool>): bool { health == Got(true) }

  predicate ChecksHealth(a: Adapter, r: Reads) { a.preferRemote && r.nowMs - a.lastHealthCheck > HEALTH_CHECK_INTERVAL_MS }

  function Checked(a: Adapter, atMs: int, health: Answer<bool>): Adapter {
    a.(remoteAvailable := IsUp(health), lastHealthCheck := atMs)
  }

  /** The adapter as it is once it has decided where to send a call. */
  function Decided(a: Adapter, r: Reads): Adapter { if ChecksHealth(a, r) then Checked(a, r.checkMs, r.health) else a }

  predicate UsesRemote(a: Adapter, r: Reads) { a.preferRemote && Decided(a, r).remoteAvailable }

  function AfterCall(a: Adapter, r: Reads, remoteRaises: bool): Adapter {
    if UsesRemote(a, r) && remoteRaises then Decided(a, r).(remoteAvailable := false) else Decided(a, r)
  }

  function Constructed(preferRemote: bool, atMs: int, health: Answer<bool>): Adapter {
    if preferRemote then Checked(Adapter(true, false, 0), atMs, health) else Adapter(false, false, 0)
  }

  /** The remote answer if the call was made and succeeded, the local answer otherwise. */
  function Chosen<T>(a: Adapter, r: Reads, remote: Answer<T>, local: T): T {
    if UsesRemote(a, r) && remote.Got? then remote.value else local
  }

  class HybridAnomalyAdapter {
    const localAdapter: Scoring.InProcessAdapter
    const preferRemote: bool
    var remoteAvailable: bool
    var lastHealthCheck: int

    function State(): Adapter
      reads this
    {
      Adapter(preferRemote, remoteAvailable, lastHealthCheck)
    }

    constructor (localAdapter: Scoring.InProcessAdapter, preferRemote: bool, atMs: int, health: Answer<bool>)
      ensures this.localAdapter == localAdapter && State() == Constructed(preferRemote, atMs, health)
    {
      this.localAdapter, this.preferRemote := localAdapter, preferRemote;
      remoteAvailable, lastHealthCheck := false, 0;
      new;
      if preferRemote {
        CheckRemoteHealth(atMs, health);
      }
    }

    method CheckRemoteHealth(atMs: int, health: Answer<bool>)
      modifies this
      ensures State() == Checked(old(State()), atMs, health)
    {
      lastHealthCheck := atMs;
      match health
      case Got(available) => remoteAvailable := available;
      case Raised => remoteAvailable := false;
    }

    method ShouldUseRemote(r: Reads) returns (use: bool)
      modifies this
      ensures State() == Decided(old(State()), r) && use == UsesRemote(old(State()), r)
    {
      if !preferRemote {
        return false;
      }
      if r.nowMs - lastHealthCheck > HEALTH_CHECK_INTERVAL_MS {
        CheckRemoteHealth(r.checkMs, r.health);
      }
      use := remoteAvailable;
    }

    method ScoreWindow(id: ContainerId, values: seq<real>, r: Reads, remote: Answer<Scoring.Score>) returns (s: Scoring.Score)
      modifies this
      ensures s == Chosen(old(State()), r, remote, Scoring.ScoreOf(values, old(localAdapter.BaselineOf(id))))
      ensures State() == AfterCall(old(State()), r, remote.Raised?)
    {
      var use := ShouldUseRemote(r);
      if use {
        match remote
        case Got(score) => return score;
        case Raised => remoteAvailable := false;
      }
      s := localAdapter.ScoreWindow(id, values);
    }

    /** The local model is trained whatever becomes of the remote one, so that there is one to fall back to. */
    method TrainModel(id: ContainerId, data: seq<seq<real>>, r: Reads, remote: Answer<()>) returns (remoteTrained: bool)
      modifies this, localAdapter
      ensures remoteTrained == (UsesRemote(old(State()), r) && remote.Got?)
      ensures State() == AfterCall(old(State()), r, remote.Raised?)
      ensures var before := old(localAdapter.versions);
              localAdapter.versions == before[id := (if id in before then before[id] else 0) + 1]
      ensures if data == [] then localAdapter.baselines == old(localAdapter.baselines)
              else && id in localAdapter.baselines
                   && localAdapter.baselines == old(localAdapter.baselines)[id := localAdapter.baselines[id]]
                   && Scoring.IsBaseline(data, localAdapter.baselines[id])
    {
      hide Scoring.IsBaseline;
      localAdapter.TrainModel(id, data);
      remoteTrained := false;
      var use := ShouldUseRemote(r);
      if use {
        match remote
        case Got(_) => remoteTrained := true;
        case Raised => remoteAvailable := false;
      }
    }

    method GetModelMeta(r: Reads, remote: Answer<Option<Training.ModelMeta>>, local: Option<Training.ModelMeta>)
      returns (meta: Option<Training.ModelMeta>)
      modifies this
      ensures meta == Chosen(old(State()), r, remote, local) && State() == AfterCall(old(State()), r, remote.Raised?)
    {
      var use := ShouldUseRemote(r);
      if use {
        match remote
        case Got(m) => return m;
        case Raised => remoteAvailable := false;
      }
      meta := local;
    }
  }

  // ---- runs ----

  /** A score, training or metadata call, or a forced refresh. */
  datatype Call = Ask(seen: Reads, remoteRaises: bool) | Refresh(atMs: int, health: Answer<bool>)

  function Step(a: Adapter, call: Call): Adapter {
    match call
    case Ask(r, raises) => AfterCall(a, r, raises)
    case Refresh(atMs, health) => Checked(a, atMs, health)
  }

  /**
   * One call, by its readings alone: more than five minutes after the last health check the check it makes decides,
   * within them the flag; the remote answer is returned if it decides for the remote service and that answers.
   */
  lemma CallByReadings<V>(a: Adapter, r: Reads, remote: Answer<V>, local: V)
    ensures var checks := a.preferRemote && r.nowMs - a.lastHealthCheck > 300_000;
            var up := a.preferRemote && if checks then r.health == Got(true) else a.remoteAvailable;
            && Chosen(a, r, remote, local) == (if up && remote.Got? then remote.value else local)
            && (UsesRemote(a, r) <==> up)
            && AfterCall(a, r, remote.Raised?) == Adapter(a.preferRemote,
                 if up && remote.Raised? then false else if checks then r.health == Got(true) else a.remoteAvailable,
                 if checks then r.checkMs else a.lastHealthCheck)
  {
  }

  datatype Setup = Setup(preferRemote: bool, atMs: int, health: Answer<bool>)

  function Run(setup: Setup, calls: seq<Call>): Adapter {
    if calls == [] then Constructed(setup.preferRemote, setup.atMs, setup.health)
    else Step(Run(setup, calls[..|calls| - 1]), calls[|calls| - 1])
  }

  /** A health check: when, and whether it answered true. */
  datatype Check = Check(atMs: int, up: bool)

  /** The last health check of a run; an adapter that does not prefer the remote service starts as after one at 0. */
  function LastCheck(setup: Setup, calls: seq<Call>): Check {
    if calls == [] then (if setup.preferRemote then Check(setup.atMs, setup.health == Got(true)) else Check(0, false))
    else
      var before := LastCheck(setup, calls[..|calls| - 1]);
      match calls[|calls| - 1]
      case Refresh(atMs, health) => Check(atMs, health == Got(true))
      case Ask(r, _) =>
        if setup.preferRemote && r.nowMs - before.atMs > 300_000 then Check(r.checkMs, r.health == Got(true)) else before
  }

  /** A call sent to the remote service has raised since the last health check. */
  predicate FailedSince(setup: Setup, calls: seq<Call>) {
    if calls == [] then false
    else
      var before := calls[..|calls| - 1];
      match calls[|calls| - 1]
      case Refresh(_, _) => false
      case Ask(r, raises) =>
        if setup.preferRemote && r.nowMs - LastCheck(setup, before).atMs > 300_000 then r.health == Got(true) && raises
        else FailedSince(setup, before) || (setup.preferRemote && LastCheck(setup, before).up && raises)
  }

  /** In every run the flag is set exactly if the last health check answered true and no remote call has raised since. */
  lemma {:induction false} FlagFollowsLastCheck(setup: Setup, calls: seq<Call>)
    ensures var a := Run(setup, calls);
            && a.preferRemote == setup.preferRemote
            && a.lastHealthCheck == LastCheck(setup, calls).atMs
            && (a.remoteAvailable <==> LastCheck(setup, calls).up && !FailedSince(setup, calls))
  {
    hide AfterCall, Decided, UsesRemote;
    if calls != [] {
      var n := |calls| - 1;
      var a := Run(setup, calls[..n]);
      FlagFollowsLastCheck(setup, calls[..n]);
      if calls[n].Ask? { CallByReadings(a, calls[n].seen, if calls[n].remoteRaises then Raised else Got(()), ()); }
    }
  }

  /**
   * So in every run: a call more than five minutes after the last health check is answered by the remote service
   * exactly if that is up by then and answers, whatever happened before; an earlier one exactly if it was up at that
   * check, no call has raised since, and it answers.
   */
  lemma AnswersByHistory<V>(setup: Setup, calls: seq<Call>, r: Reads, remote: Answer<V>, local: V)
    ensures Chosen(Run(setup, calls), r, remote, local) ==
            if && setup.preferRemote && remote.Got?
               && (if r.nowMs - LastCheck(setup, calls).atMs > 300_000 then r.health == Got(true)
                   else LastCheck(setup, calls).up && !FailedSince(setup, calls))
            then remote.value else local
  {
    hide Chosen;
    FlagFollowsLastCheck(setup, calls);
    CallByReadings(Run(setup, calls), r, remote, local);
  }

  /** Calls that went to the remote service and raised. */
  function Failures(setup: Setup, calls: seq<Call>): nat {
    if calls == [] then 0
    else
      var n := |calls| - 1;
      Failures(setup, calls[..n]) +
      Bit(calls[n].Ask? && calls[n].remoteRaises && UsesRemote(Run(setup, calls[..n]), calls[n].seen))
  }

  predicate MakesCheck(a: Adapter, call: Call) { call.Refresh? || ChecksHealth(a, call.seen) }
  function Health(call: Call): Answer<bool> { if call.Refresh? then call.health else call.seen.health }

  /** Health checks made, the constructor's among them. */
  function Checks(setup: Setup, calls: seq<Call>): nat {
    if calls == [] then Bit(setup.preferRemote)
    else var n := |calls| - 1; Checks(setup, calls[..n]) + Bit(MakesCheck(Run(setup, calls[..n]), calls[n]))
  }

  /** Those of them that found the service up. */
  function GoodChecks(setup: Setup, calls: seq<Call>): nat {
    if calls == [] then Bit(setup.preferRemote && IsUp(setup.health))
    else
      var n := |calls| - 1;
      GoodChecks(setup, calls[..n]) + Bit(MakesCheck(Run(setup, calls[..n]), calls[n]) && IsUp(Health(calls[n])))
  }

  /**
   * In every sequential run, with any clock and any number of forced refreshes: failing remote calls never
   * outnumber the health checks that found the service up, and there is one to spare while it is believed up.
   */
  lemma {:induction false} FailuresArePaidFor(setup: Setup, calls: seq<Call>)
    ensures Failures(setup, calls) + Bit(Run(setup, calls).remoteAvailable) <= GoodChecks(setup, calls) <= Checks(setup, calls)
  {
    if calls != [] { FailuresArePaidFor(setup, calls[..|calls| - 1]); }
  }

  /** A clock that does not run backwards, no forced refresh, and nothing later than `endMs`. */
  predicate Timely(setup: Setup, calls: seq<Call>, endMs: int) {
    && setup.atMs <= endMs
    && (forall i :: 0 <= i < |calls| ==> calls[i].Ask? && setup.atMs <= calls[i].seen.nowMs <= calls[i].seen.checkMs <= endMs)
    && (forall i, j :: 0 <= i < j < |calls| ==> calls[i].seen.checkMs <= calls[j].seen.nowMs)
  }

  lemma CheckAdvances(a: Adapter, r: Reads, raises: bool)
    requires a.preferRemote && r.nowMs <= r.checkMs
    ensures var after := AfterCall(a, r, raises);
            && after.preferRemote
            && if ChecksHealth(a, r) then a.lastHealthCheck + 300_001 <= r.checkMs == after.lastHealthCheck
               else after.lastHealthCheck == a.lastHealthCheck
  {
  }

  lemma {:induction false} ChecksAreSpaced(setup: Setup, calls: seq<Call>, endMs: int)
    requires setup.preferRemote && Timely(setup, calls, endMs)
    ensures Run(setup, calls).preferRemote && setup.atMs <= Run(setup, calls).lastHealthCheck <= endMs
    ensures 300_001 * (Checks(setup, calls) - 1) <= Run(setup, calls).lastHealthCheck - setup.atMs
  {
    hide AfterCall, ChecksHealth;
    if calls != [] {
      var n := |calls| - 1;
      assert calls[n].Ask? && calls[n].seen.nowMs <= calls[n].seen.checkMs <= endMs;
      ChecksAreSpaced(setup, calls[..n], endMs);
      CheckAdvances(Run(setup, calls[..n]), calls[n].seen, calls[n].remoteRaises);
    }
  }

  lemma {:induction false} LocalOnly(setup: Setup, calls: seq<Call>, endMs: int)
    requires !setup.preferRemote && Timely(setup, calls, endMs)
    ensures !Run(setup, calls).preferRemote && Failures(setup, calls) == 0
  {
    if calls != [] {
      LocalOnly(setup, calls[..|calls| - 1], endMs);
      assert calls[|calls| - 1].Ask?;
    }
  }

  /** The amortised bound: at most one failing call, and one more for each 300001 ms since construction. */
  lemma FailuresAmortised(setup: Setup, calls: seq<Call>, endMs: int)
    requires Timely(setup, calls, endMs)
    ensures Failures(setup, calls) <= 1 + (endMs - setup.atMs) / 300_001
  {
    if setup.preferRemote {
      FailuresArePaidFor(setup, calls);
      ChecksAreSpaced(setup, calls, endMs);
    } else {
      LocalOnly(setup, calls, endMs);
    }
  }
}
