/** Triage with the language model off, the policy it leads to, and both engines in front of it. */
module Triage {
  import opened Common
  import opened Trace
  import opened Entropy
  import opened Features
  import opened Scoring

  datatype Verdict = Threat | Safe | Other

  datatype Explanation =
    | WithinBaseline
    | CorrelatesWithDeployment(commitId: string)
    | HighScore(mlScore: real)
    | ModerateScore(mlScore: real)
    | AcceptableVariance

  datatype ChangeContext = ChangeContext(commitId: string, deployedAt: Option<int>)
  datatype Finding = Finding(verdict: Verdict, riskScore: real, explanation: Explanation)

  function MaxReal(a: real, b: real): real { if a < b then b else a }

  function TriageWithHeuristics(window: Score, context: Option<ChangeContext>): Finding {
    var mlScore := Abs(window.score);
    var hasRecentDeploy := context.Some? && context.value.deployedAt.Some?;
    if !window.anomalous then Finding(Safe, MaxReal(0.1, mlScore * 0.3), WithinBaseline)
    else if hasRecentDeploy then Finding(Safe, MinReal(0.5, mlScore * 0.6), CorrelatesWithDeployment(context.value.commitId))
    else if mlScore > 0.8 then Finding(Threat, MinReal(0.95, mlScore), HighScore(mlScore))
    else if mlScore > 0.5 then Finding(Threat, mlScore * 0.8, ModerateScore(mlScore))
    else Finding(Safe, mlScore * 0.5, AcceptableVariance)
  }

  /** The controller never triages without a context: it makes one, with no deployment, if the port has none. */
  function AttachSummary(context: Option<ChangeContext>): ChangeContext {
    match context
    case Some(c) => c
    case None => ChangeContext("unknown", None)
  }

  datatype Policy = Policy(containerId: ContainerId)

  function GeneratePolicy(containerId: ContainerId, verdict: Verdict): Option<Policy> {
    if verdict != Threat then None else Some(Policy(containerId))
  }

  /** The remote engine: a trained model's sample score against the configured threshold, or neutral if untrained. */
  function RemoteScore(fitted: bool, sample: real, threshold: real): Score {
    if !fitted then Score(0.0, false) else Score(sample, sample < threshold)
  }

  function IsDeployed(context: Option<ChangeContext>): bool { context.Some? && context.value.deployedAt.Some? }

  /** From a score to enforcement: a threat, and exactly then a policy, with a risk between 0.1 and 0.95. */
  predicate Enforced(window: Score, context: Option<ChangeContext>, containerId: ContainerId) {
    var finding := TriageWithHeuristics(window, Some(AttachSummary(context)));
    && (finding.verdict == Threat <==> window.anomalous && !IsDeployed(context))
    && (GeneratePolicy(containerId, finding.verdict).Some? <==> window.anomalous && !IsDeployed(context))
    && 0.1 <= finding.riskScore <= 0.95
  }

  /** Scoring to enforcement through the in-process engine, for every window the server can hold. */
  lemma LocalEngineEnforces(rs: seq<Record>, ln: real -> real, baseline: Option<Baseline>,
                            context: Option<ChangeContext>, containerId: ContainerId)
    requires IsLn(ln) && |rs| <= 0x7fff_ffff
    ensures Enforced(ScoreOf(JavaVector(rs, ln), baseline), context, containerId)
  {
    hide IsLn, JavaVector, HeuristicScore;
    ScoreOfWindow(rs, ln, baseline);
  }

  /** The same for every sample score of the remote engine, if and only if its threshold is at most -0.5. */
  lemma RemoteEngineEnforcesIff(threshold: real)
    ensures (forall fitted, sample, context, containerId | -1.0 <= sample <= 0.0 ::
               Enforced(RemoteScore(fitted, sample, threshold), context, containerId))
            <==> threshold <= -0.5
  {
    if threshold > -0.5 {
      LaxThresholdMissesThreat(threshold, []);
      var sample := -0.5;
      assert !Enforced(RemoteScore(true, sample, threshold), None, []);
    }
  }

  /** Above that threshold an anomalous window goes unenforced: it is called safe. */
  lemma LaxThresholdMissesThreat(threshold: real, containerId: ContainerId)
    requires -0.5 < threshold
    ensures var window := RemoteScore(true, -0.5, threshold);
            window.anomalous && TriageWithHeuristics(window, None).verdict == Safe && GeneratePolicy(containerId, Safe) == None
  {
  }

  // ---- risk and explanation ----

  /** The risk of a window that is not anomalous: the larger of 0.1 and three tenths of its score's magnitude. */
  lemma RiskOfNormal(window: Score, context: Option<ChangeContext>)
    requires !window.anomalous
    ensures var f, m := TriageWithHeuristics(window, context), Abs(window.score);
            && f.explanation == WithinBaseline
            && f.riskScore >= 0.1 && f.riskScore >= 0.3 * m && (f.riskScore == 0.1 || f.riskScore == 0.3 * m)
  {
  }

  /** Of an anomalous one after a dated deployment: the smaller of 0.5 and six tenths, with the commit named. */
  lemma RiskOfDeployed(window: Score, context: ChangeContext)
    requires window.anomalous && context.deployedAt.Some?
    ensures var f, m := TriageWithHeuristics(window, Some(context)), Abs(window.score);
            && f.explanation == CorrelatesWithDeployment(context.commitId)
            && f.riskScore <= 0.5 && f.riskScore <= 0.6 * m && (f.riskScore == 0.5 || f.riskScore == 0.6 * m)
  {
  }

  /** Of any other: its score's magnitude up to 0.95 above 0.8, eight tenths of it above 0.5, half of it below. */
  lemma RiskOfUnexplained(window: Score, context: Option<ChangeContext>)
    requires window.anomalous && !IsDeployed(context)
    ensures var f, m := TriageWithHeuristics(window, context), Abs(window.score);
            && (m > 0.95 ==> f == Finding(Threat, 0.95, HighScore(m)))
            && (0.8 < m <= 0.95 ==> f == Finding(Threat, m, HighScore(m)))
            && (0.5 < m <= 0.8 ==> f == Finding(Threat, 0.8 * m, ModerateScore(m)))
            && (m <= 0.5 ==> f == Finding(Safe, 0.5 * m, AcceptableVariance))
  {
  }

  /** Whatever the branch, among windows alike otherwise a larger magnitude never has the smaller risk. */
  lemma RiskGrows(a: Score, b: Score, context: Option<ChangeContext>)
    requires a.anomalous == b.anomalous && Abs(a.score) <= Abs(b.score)
    ensures TriageWithHeuristics(a, context).riskScore <= TriageWithHeuristics(b, context).riskScore
  {
    hide Abs;
  }
}
