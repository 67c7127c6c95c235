/**
 One repair run: eleven nodes over one state value, each guarded by the state's own
 validator, and the routing to a terminal outcome (app/agent/graph.py:168-319, 445-1012,
 1060-1093; app/agent/routing.py:20-257; app/agent/schemas.py:142-210). The boundaries the
 nodes call do what they like.
 */
module RunGraph {
  import opened Wrappers
  import G = StaticGate
  import V = Verification

  // ---------------------------------------------------------------- evidence

  datatype Preparation = Preparation(caseId: string, identity: int)

  datatype BaselineOutcome = ReproducedFailure | NotReproducible | InfrastructureDiagnostic

  datatype BaselineCode =
    | BaselineNotReproducibleCode | InvalidVisibleTest | SandboxTimedOut | SandboxMemoryLimit
    | SandboxValidationFailed | SandboxExecutionFailed | SandboxCleanupFailed | MalformedSandboxResult

  datatype BaselineEvidence = BaselineEvidence(
    completion: V.Completion, exitCode: Option<int>, stdoutTruncated: bool, stderrTruncated: bool, duration: real)

  datatype Baseline = Baseline(
    preparation: Preparation, outcome: BaselineOutcome, evidence: Option<BaselineEvidence>,
    code: Option<BaselineCode>, hasMessage: bool)

  /** `BaselineResult.validate_outcome`. */
  predicate ValidBaseline(b: Baseline) {
    && (b.evidence.Some? ==> b.evidence.value.duration >= 0.0)
    && match b.outcome
       case ReproducedFailure =>
         && b.evidence.Some? && b.evidence.value.completion == V.Normal
         && b.evidence.value.exitCode !in {None, Some(0)} && b.code.None? && !b.hasMessage
       case NotReproducible =>
         && b.evidence.Some? && b.evidence.value.completion == V.Normal && b.evidence.value.exitCode == Some(0)
         && b.code == Some(BaselineNotReproducibleCode) && b.hasMessage
       case InfrastructureDiagnostic =>
         && b.code.Some? && b.code.value != BaselineNotReproducibleCode && b.hasMessage
         && match b.code.value
            case SandboxTimedOut => b.evidence.Some? && b.evidence.value.completion == V.TimedOut && b.evidence.value.exitCode.None?
            case SandboxMemoryLimit => b.evidence.Some? && b.evidence.value.completion == V.MemoryLimit
            case _ => b.evidence.None?
  }

  datatype Context = Context(caseId: string, analysis: int)

  /** Absent measurements make a snapshot incomplete. */
  datatype Usage = Usage(latency: Option<real>, inputTokens: Option<nat>, outputTokens: Option<nat>, cost: Option<real>)

  predicate Complete(usage: Usage) {
    usage.latency.Some? && usage.inputTokens.Some? && usage.outputTokens.Some? && usage.cost.Some?
  }

  const NO_USAGE := Usage(None, None, None, None)

  datatype Verified = Verified(stages: seq<V.StageResult>, verdict: V.Verdict)

  datatype FunctionalStatus = FunctionalPassed | FunctionalFailed | NotEvaluated

  datatype Evaluation = Evaluation(caseId: string, status: FunctionalStatus, usage: Usage)

  /** The status `evaluate_candidate` gives a verification. */
  function StatusOf(verdict: V.Verdict): FunctionalStatus {
    match verdict
    case AllPassed => FunctionalPassed
    case CandidateFailed => FunctionalFailed
    case InfrastructureDiagnostic => NotEvaluated
  }

  datatype Configuration = Configuration(provider: string, model: string, promptVersion: string)

  /** The record kept beside the run's state. */
  datatype Legacy = Legacy(attempt: nat, baseline: Option<Baseline>, analysis: Option<int>, plan: Option<int>,
      patch: Option<int>)

  // ---------------------------------------------------------------- outcomes

  datatype TerminalOutcome =
    | Success | CandidateFailure | PolicyViolation | StaticCheckFailure
    | BaselineNotReproducible | InfrastructureFailure | MalformedModelOutput

  function ExitCode(outcome: TerminalOutcome): int {
    match outcome
    case Success => 0
    case CandidateFailure => 1
    case PolicyViolation => 3
    case StaticCheckFailure => 4
    case BaselineNotReproducible => 5
    case InfrastructureFailure => 6
    case MalformedModelOutput => 7
  }

  /** The diagnostic names the outcome it is about. */
  datatype Route = Route(outcome: TerminalOutcome, exitCode: int, diagnostic: Option<TerminalOutcome>)

  function RouteFor(outcome: TerminalOutcome): Route {
    Route(outcome, ExitCode(outcome), if outcome == Success then None else Some(outcome))
  }

  // ---------------------------------------------------------------- state

  datatype Node =
    | PrepareRepository | RunBaseline | ClassifyFailure | SelectContext | PlanRepair | GeneratePatch
    | ValidatePolicy | RunStaticChecks | VerifyInSandbox | EvaluateCandidate | RouteResult

  const NODES := [PrepareRepository, RunBaseline, ClassifyFailure, SelectContext, PlanRepair, GeneratePatch,
                  ValidatePolicy, RunStaticChecks, VerifyInSandbox, EvaluateCandidate, RouteResult]

  datatype State = State(
    caseId: string, startedAt: int, completedAt: Option<int>, attempt: nat,
    configuration: Option<Configuration>, legacy: Legacy, usage: Option<Usage>,
    preparation: Option<Preparation>, baseline: Option<Baseline>, analysis: Option<int>, context: Option<Context>,
    plan: Option<int>, proposal: Option<int>, policy: Option<bool>, staticReport: Option<G.Report>,
    verification: Option<Verified>, evaluation: Option<Evaluation>,
    failureOverride: Option<TerminalOutcome>, route: Option<Route>, nodes: seq<Node>)

  /** Whether the evidence of the node at this place is there. */
  predicate HasEvidence(s: State, k: nat)
    requires k < 10
  {
    match k
    case 0 => s.preparation.Some?
    case 1 => s.baseline.Some?
    case 2 => s.analysis.Some?
    case 3 => s.context.Some?
    case 4 => s.plan.Some?
    case 5 => s.proposal.Some?
    case 6 => s.policy.Some?
    case 7 => s.staticReport.Some?
    case 8 => s.verification.Some?
    case _ => s.evaluation.Some?
  }

  function BeforeRoute(s: State): seq<Node> {
    if s.nodes != [] && s.nodes[|s.nodes| - 1] == RouteResult then s.nodes[..|s.nodes| - 1] else s.nodes
  }

  const EVIDENCE_OUTCOMES := {Success, PolicyViolation, StaticCheckFailure, BaselineNotReproducible}
  const EARLY_OUTCOMES := {CandidateFailure, MalformedModelOutput}

  /** `RoutingEvidence.validate_override`. */
  predicate RoutingEvidenceOk(s: State) {
    && !(s.failureOverride.Some? && s.failureOverride.value in EVIDENCE_OUTCOMES)
    && (s.baseline.None? ==> s.policy.None? && s.staticReport.None? && s.verification.None? && s.evaluation.None?)
    && (s.baseline.Some? && s.baseline.value.outcome != ReproducedFailure
        ==> s.policy.None? && s.staticReport.None? && s.verification.None? && s.evaluation.None?)
    && (s.policy != Some(true) ==> s.staticReport.None? && s.verification.None? && s.evaluation.None?)
    && (s.staticReport.None? || s.staticReport.value.outcome != G.Approved ==> s.verification.None? && s.evaluation.None?)
    && (s.verification.None? ==> s.evaluation.None?)
    && (s.failureOverride.Some? && s.failureOverride.value in EARLY_OUTCOMES
        ==> s.policy.None? && s.staticReport.None? && s.verification.None? && s.evaluation.None?)
  }

  /** `route_terminal` on good evidence. */
  function RouteTerminal(s: State): TerminalOutcome {
    if s.failureOverride.Some? then s.failureOverride.value
    else if s.baseline.None? then InfrastructureFailure
    else if s.baseline.value.outcome == NotReproducible then BaselineNotReproducible
    else if s.baseline.value.outcome == InfrastructureDiagnostic then InfrastructureFailure
    else if s.policy.None? then InfrastructureFailure
    else if !s.policy.value then PolicyViolation
    else if s.staticReport.None? then InfrastructureFailure
    else if s.staticReport.value.outcome == G.CandidateFailed then StaticCheckFailure
    else if s.staticReport.value.outcome == G.InfrastructureDiagnostic then InfrastructureFailure
    else if s.verification.None? || s.evaluation.None? then InfrastructureFailure
    else
      match s.verification.value.verdict
      case AllPassed => if s.evaluation.value.status == FunctionalPassed then Success else InfrastructureFailure
      case CandidateFailed => if s.evaluation.value.status == FunctionalFailed then CandidateFailure else InfrastructureFailure
      case InfrastructureDiagnostic => InfrastructureFailure
  }

  /** `route_state`: none when the evidence is refused. */
  function RouteState(s: State): Option<Route> {
    if RoutingEvidenceOk(s) then Some(RouteFor(RouteTerminal(s))) else None
  }

  predicate TimesOk(s: State) {
    s.completedAt.Some? ==> s.completedAt.value >= s.startedAt
  }

  predicate NodesOk(s: State) {
    && |BeforeRoute(s)| <= |NODES|
    && BeforeRoute(s) == NODES[..|BeforeRoute(s)|]
    && (forall i :: 0 <= i < |s.nodes| - 1 ==> s.nodes[i] != RouteResult)
  }

  predicate LastAndOverridden(s: State, node: Node) {
    s.failureOverride.Some? && BeforeRoute(s) != [] && node == BeforeRoute(s)[|BeforeRoute(s)| - 1]
  }

  predicate EvidenceOk(s: State) {
    && (forall k :: 0 <= k < 10 && HasEvidence(s, k) ==> NODES[k] in BeforeRoute(s))
    && (s.usage.Some? ==> PlanRepair in BeforeRoute(s) && Complete(s.usage.value))
    && (forall k :: 0 <= k < 10 && !HasEvidence(s, k) && NODES[k] in BeforeRoute(s) ==> LastAndOverridden(s, NODES[k]))
  }

  predicate IdentitiesOk(s: State) {
    && s.legacy.attempt == s.attempt
    && (s.preparation.Some? ==> s.preparation.value.caseId == s.caseId)
    && (s.baseline.Some? ==> s.preparation == Some(s.baseline.value.preparation) && s.legacy.baseline == s.baseline)
    && (s.analysis.Some? ==> s.baseline.Some? && s.legacy.analysis == s.analysis)
    && (s.context.Some? ==> s.analysis.Some? && s.context.value == Context(s.caseId, s.analysis.value))
    && (s.plan.Some? ==> s.legacy.plan == s.plan)
    && (s.proposal.None? ==> s.policy.None?)
    && (s.proposal.Some? ==> s.legacy.patch == s.proposal)
    && (s.staticReport.Some? ==> s.policy.Some?)
    && (s.verification.Some? ==> s.staticReport.Some? && s.staticReport.value.outcome == G.Approved)
    && (s.evaluation.Some? ==>
      && s.proposal.Some? && s.verification.Some? && s.evaluation.value.caseId == s.caseId
      && s.evaluation.value.usage == if s.usage.None? then NO_USAGE else s.usage.value)
  }

  predicate OverrideOk(s: State) {
    && !(s.failureOverride.Some? && s.failureOverride.value in EVIDENCE_OUTCOMES)
    && (s.failureOverride.Some? && s.failureOverride.value in EARLY_OUTCOMES
        ==> s.policy.None? && s.staticReport.None? && s.verification.None? && s.evaluation.None?)
  }

  predicate RouteOk(s: State) {
    if s.route.None? then s.completedAt.None? && RouteResult !in s.nodes
    else
      && s.completedAt.Some? && s.nodes != [] && s.nodes[|s.nodes| - 1] == RouteResult
      && RouteState(s) == s.route
  }

  /** `OrchestrationState.validate_invariants`, and the validators of the values in it. */
  predicate Invariant(s: State) {
    && s.attempt <= 1
    && (s.baseline.Some? ==> ValidBaseline(s.baseline.value))
    && (s.staticReport.Some? ==> G.ValidReport(s.staticReport.value))
    && (s.verification.Some? ==> V.ValidResult(s.verification.value.stages, s.verification.value.verdict))
    && TimesOk(s) && NodesOk(s) && EvidenceOk(s) && IdentitiesOk(s) && OverrideOk(s) && RouteOk(s)
  }

  // ---------------------------------------------------------------- what the boundaries do

  datatype ModelCode =
    | MissingConfiguration | InvalidConfiguration | UnsupportedPromptVersion | InvalidInputState | ProviderException
    | OversizedResponse | MalformedStructuredOutput | UnsuitableAutonomousRepair | InvalidPatchEnvelope

  /** What a planner or patch generator, and the recording of its answer, come to. */
  datatype ModelAnswer = Answered(value: int) | ModelError(code: ModelCode) | OtherError

  datatype UsageAnswer = NoReader | Snapshot(usage: Usage) | ReaderRaises

  /** Every call of a run; none stands for an exception. Clocks count from any point. */
  datatype Behaviour = Behaviour(
    prepared: Option<Preparation>,
    baseline: Option<Baseline>, baselineClock: Option<int>,
    analysis: Option<int>, analysisClock: Option<int>,
    context: Option<Context>,
    modelConfiguration: Option<Configuration>, hasProvider: bool,
    planned: ModelAnswer, planClock: Option<int>, planUsage: UsageAnswer, planFailureClock: Option<int>, planFailureUsage: UsageAnswer,
    patched: ModelAnswer, patchClock: Option<int>, patchUsage: UsageAnswer, patchFailureUsage: UsageAnswer,
    policy: Option<bool>,
    staticReport: Option<G.Report>,
    verified: Option<Verified>,
    evaluated: Option<Evaluation>,
    routeClock: Option<int>)

  // ---------------------------------------------------------------- nodes

  /** `_finish`: the node is recorded once, and the new state checked; none when it raises. */
  function Finish(s: State, node: Node, updated: State): Option<State> {
    var t := updated.(nodes := s.nodes + [node]);
    if node in s.nodes || s.route.Some? || !Invariant(t) then None else Some(t)
  }

  /** `_failure`. */
  function Failure(s: State, node: Node, outcome: TerminalOutcome): Option<State> {
    Finish(s, node, s.(failureOverride := Some(outcome)))
  }

  /** The body of a `try`, and its handler. */
  function OrFailure(attempt: Option<State>, s: State, node: Node): Option<State> {
    if attempt.Some? then attempt else Failure(s, node, InfrastructureFailure)
  }

  function DoPrepare(s: State, b: Behaviour): Option<State> {
    var attempt :=
      if b.prepared.None? || b.prepared.value.caseId != s.caseId then None
      else Finish(s, PrepareRepository, s.(preparation := b.prepared));
    OrFailure(attempt, s, PrepareRepository)
  }

  function DoBaseline(s: State, b: Behaviour): Option<State> {
    var attempt :=
      if s.preparation.None? || b.baseline.None? || !ValidBaseline(b.baseline.value) || b.baselineClock.None? then None
      else Finish(s, RunBaseline, s.(baseline := b.baseline, legacy := s.legacy.(baseline := b.baseline)));
    OrFailure(attempt, s, RunBaseline)
  }

  function DoClassify(s: State, b: Behaviour): Option<State> {
    var attempt :=
      if s.baseline.None? || b.analysis.None? || s.baseline.value.outcome != ReproducedFailure || b.analysisClock.None? then None
      else Finish(s, ClassifyFailure, s.(analysis := b.analysis, legacy := s.legacy.(analysis := b.analysis)));
    OrFailure(attempt, s, ClassifyFailure)
  }

  function DoContext(s: State, b: Behaviour): Option<State> {
    var attempt :=
      if s.baseline.None? || s.analysis.None? || b.context.None? then None
      else Finish(s, SelectContext, s.(context := b.context));
    OrFailure(attempt, s, SelectContext)
  }

  /** `_model_failure`. */
  function ModelFailure(code: ModelCode): TerminalOutcome {
    match code
    case UnsuitableAutonomousRepair => CandidateFailure
    case OversizedResponse => MalformedModelOutput
    case MalformedStructuredOutput => MalformedModelOutput
    case InvalidPatchEnvelope => MalformedModelOutput
    case _ => InfrastructureFailure
  }

  /** The state with what the usage reader gave, if anything. */
  function WithUsage(s: State, answer: UsageAnswer): State {
    if answer.Snapshot? then s.(usage := Some(answer.usage)) else s
  }

  /** `_attempt_failure`. */
  function AttemptFailure(s: State, b: Behaviour, outcome: TerminalOutcome): Option<State> {
    var final := if b.planFailureClock.None? || b.planFailureUsage.ReaderRaises? then InfrastructureFailure else outcome;
    var updated := s.(attempt := 1, legacy := s.legacy.(attempt := 1), failureOverride := Some(final));
    Finish(s, PlanRepair, WithUsage(updated, b.planFailureUsage))
  }

  function DoPlan(s: State, b: Behaviour): Option<State> {
    if s.context.None? || b.modelConfiguration.None? || !b.hasProvider || s.configuration != b.modelConfiguration
    then AttemptFailure(s, b, InfrastructureFailure)
    else
      match b.planned
      case ModelError(code) => AttemptFailure(s, b, ModelFailure(code))
      case OtherError => AttemptFailure(s, b, InfrastructureFailure)
      case Answered(plan) =>
        var updated := s.(plan := Some(plan), attempt := 1, legacy := s.legacy.(plan := Some(plan), attempt := 1));
        var attempt :=
          if b.planClock.None? || b.planUsage.ReaderRaises? then None
          else Finish(s, PlanRepair, WithUsage(updated, b.planUsage));
        if attempt.Some? then attempt else AttemptFailure(s, b, InfrastructureFailure)
  }

  /** `_failure_with_usage` of the patch generator. */
  function PatchFailure(s: State, b: Behaviour, outcome: TerminalOutcome): Option<State> {
    var final := if b.patchFailureUsage.ReaderRaises? then InfrastructureFailure else outcome;
    Finish(s, GeneratePatch, WithUsage(s.(failureOverride := Some(final)), b.patchFailureUsage))
  }

  function DoPatch(s: State, b: Behaviour): Option<State> {
    if s.context.None? || s.plan.None? || b.modelConfiguration.None? || !b.hasProvider
    then PatchFailure(s, b, InfrastructureFailure)
    else
      match b.patched
      case ModelError(code) => PatchFailure(s, b, ModelFailure(code))
      case OtherError => PatchFailure(s, b, InfrastructureFailure)
      case Answered(proposal) =>
        var updated := s.(proposal := Some(proposal), legacy := s.legacy.(patch := Some(proposal)));
        var attempt :=
          if b.patchClock.None? || b.patchUsage.ReaderRaises? then None
          else Finish(s, GeneratePatch, WithUsage(updated, b.patchUsage));
        if attempt.Some? then attempt else PatchFailure(s, b, InfrastructureFailure)
  }

  function DoPolicy(s: State, b: Behaviour): Option<State> {
    var attempt :=
      if s.proposal.None? || s.context.None? || b.policy.None? then None
      else Finish(s, ValidatePolicy, s.(policy := b.policy));
    OrFailure(attempt, s, ValidatePolicy)
  }

  function DoStatic(s: State, b: Behaviour): Option<State> {
    var attempt :=
      if s.preparation.None? || s.proposal.None? || s.policy != Some(true) || b.staticReport.None? || !G.ValidReport(b.staticReport.value)
      then None
      else Finish(s, RunStaticChecks, s.(staticReport := b.staticReport));
    OrFailure(attempt, s, RunStaticChecks)
  }

  function DoVerify(s: State, b: Behaviour): Option<State> {
    var attempt :=
      if s.staticReport.None? || s.staticReport.value.outcome != G.Approved || b.verified.None?
        || !V.ValidResult(b.verified.value.stages, b.verified.value.verdict)
      then None
      else Finish(s, VerifyInSandbox, s.(verification := b.verified));
    OrFailure(attempt, s, VerifyInSandbox)
  }

  /** What `evaluate_candidate` gives for the state. */
  function ExpectedEvaluation(s: State): Evaluation
    requires s.verification.Some?
  {
    Evaluation(s.caseId, StatusOf(s.verification.value.verdict), if s.usage.None? then NO_USAGE else s.usage.value)
  }

  function DoEvaluate(s: State, b: Behaviour): Option<State> {
    var attempt :=
      if s.proposal.None? || s.verification.None? || b.evaluated != Some(ExpectedEvaluation(s)) then None
      else Finish(s, EvaluateCandidate, s.(evaluation := b.evaluated));
    OrFailure(attempt, s, EvaluateCandidate)
  }

  /** The node's work; none when it raises. */
  function Execute(s: State, k: nat, b: Behaviour): Option<State>
    requires k < 10
  {
    match k
    case 0 => DoPrepare(s, b)
    case 1 => DoBaseline(s, b)
    case 2 => DoClassify(s, b)
    case 3 => DoContext(s, b)
    case 4 => DoPlan(s, b)
    case 5 => DoPatch(s, b)
    case 6 => DoPolicy(s, b)
    case 7 => DoStatic(s, b)
    case 8 => DoVerify(s, b)
    case _ => DoEvaluate(s, b)
  }

  /** The `_after_*` edges: on to the next node, or to routing. */
  predicate GoesOn(s: State, k: nat) {
    && s.failureOverride.None? && k != 9
    && (k == 1 ==> s.baseline.Some? && s.baseline.value.outcome == ReproducedFailure)
    && (k == 6 ==> s.policy == Some(true))
    && (k == 7 ==> s.staticReport.Some? && s.staticReport.value.outcome == G.Approved)
  }

  function DoRoute(s: State, b: Behaviour): Option<State> {
    match RouteState(s)
    case None => None
    case Some(route) =>
      if b.routeClock.None? then None
      else Finish(s, RouteResult, s.(route := Some(route), completedAt := b.routeClock))
  }

  /** The graph from one node on; none when a node raises. */
  function RunFrom(s: State, k: nat, b: Behaviour): Option<State>
    requires k < 10
    decreases 10 - k
  {
    match Execute(s, k, b)
    case None => None
    case Some(t) => if GoesOn(t, k) then RunFrom(t, k + 1, b) else DoRoute(t, b)
  }

  /** `new_orchestration_state`. */
  function NewState(caseId: string, startedAt: int, configuration: Option<Configuration>): State {
    State(caseId, startedAt, None, 0, configuration, Legacy(0, None, None, None, None), None,
          None, None, None, None, None, None, None, None, None, None, None, None, [])
  }

  function Run(caseId: string, startedAt: int, configuration: Option<Configuration>, b: Behaviour): Option<State> {
    RunFrom(NewState(caseId, startedAt, configuration), 0, b)
  }

  // ---------------------------------------------------------------- places in a run

  lemma PrefixNodes(k: nat)
    requires k <= 10
    ensures forall j :: 0 <= j < 10 ==> (NODES[j] in NODES[..k] <==> j < k)
    ensures RouteResult !in NODES[..k]
    ensures k > 0 ==> NODES[..k][k - 1] == NODES[k - 1]
    ensures k < 10 ==> NODES[..k] + [NODES[k]] == NODES[..k + 1]
    ensures forall i, j :: 0 <= i < 11 && 0 <= j < 11 && NODES[i] == NODES[j] ==> i == j
  {
    forall j | 0 <= j < 10 ensures NODES[j] in NODES[..k] <==> j < k {
      if j < k {
        assert NODES[..k][j] == NODES[j];
      }
    }
  }

  lemma AtPrefix(s: State, k: nat)
    requires k <= 10 && s.nodes == NODES[..k]
    ensures BeforeRoute(s) == NODES[..k] && NodesOk(s) && RouteResult !in s.nodes
  {
    PrefixNodes(k);
  }

  /** Evidence that is there is of a node that ran; where it is missing, the node ran last and the outcome is overridden. */
  predicate Fits(has: bool, overridden: bool, j: nat, k: nat) {
    if has then j < k else j < k ==> overridden && j == k - 1
  }

  /** The first `k` nodes have run and left their evidence, but for the last one when the outcome is overridden. */
  predicate EvidenceUpTo(s: State, k: nat) {
    var overridden := s.failureOverride.Some?;
    && Fits(s.preparation.Some?, overridden, 0, k)
    && Fits(s.baseline.Some?, overridden, 1, k)
    && Fits(s.analysis.Some?, overridden, 2, k)
    && Fits(s.context.Some?, overridden, 3, k)
    && Fits(s.plan.Some?, overridden, 4, k)
    && Fits(s.proposal.Some?, overridden, 5, k)
    && Fits(s.policy.Some?, overridden, 6, k)
    && Fits(s.staticReport.Some?, overridden, 7, k)
    && Fits(s.verification.Some?, overridden, 8, k)
    && Fits(s.evaluation.Some?, overridden, 9, k)
    && (s.usage.Some? ==> 4 < k && Complete(s.usage.value))
  }

  lemma EvidenceEach(s: State, k: nat)
    ensures (forall j :: 0 <= j < 10 ==> Fits(HasEvidence(s, j), s.failureOverride.Some?, j, k)) && (s.usage.Some? ==> 4 < k && Complete(s.usage.value))
            <==> EvidenceUpTo(s, k)
  {
    hide Fits;
    if forall j :: 0 <= j < 10 ==> Fits(HasEvidence(s, j), s.failureOverride.Some?, j, k) {
      assert Fits(HasEvidence(s, 0), s.failureOverride.Some?, 0, k) && Fits(HasEvidence(s, 1), s.failureOverride.Some?, 1, k);
      assert Fits(HasEvidence(s, 2), s.failureOverride.Some?, 2, k) && Fits(HasEvidence(s, 3), s.failureOverride.Some?, 3, k);
      assert Fits(HasEvidence(s, 4), s.failureOverride.Some?, 4, k) && Fits(HasEvidence(s, 5), s.failureOverride.Some?, 5, k);
      assert Fits(HasEvidence(s, 6), s.failureOverride.Some?, 6, k) && Fits(HasEvidence(s, 7), s.failureOverride.Some?, 7, k);
      assert Fits(HasEvidence(s, 8), s.failureOverride.Some?, 8, k) && Fits(HasEvidence(s, 9), s.failureOverride.Some?, 9, k);
    }
  }

  lemma EvidenceAt(s: State, k: nat)
    requires k <= 10 && BeforeRoute(s) == NODES[..k]
    ensures EvidenceOk(s) <==> EvidenceUpTo(s, k)
  {
    hide HasEvidence, BeforeRoute, EvidenceUpTo;
    PrefixNodes(k);
    EvidenceEach(s, k);
    assert PlanRepair == NODES[4];
    if EvidenceOk(s) {
      forall j | 0 <= j < 10 ensures Fits(HasEvidence(s, j), s.failureOverride.Some?, j, k) {
        if j < k && !HasEvidence(s, j) {
          assert NODES[j] in BeforeRoute(s);
          assert LastAndOverridden(s, NODES[j]);
        }
      }
    }
    if EvidenceUpTo(s, k) {
      forall j | 0 <= j < 10 && !HasEvidence(s, j) && NODES[j] in BeforeRoute(s) ensures LastAndOverridden(s, NODES[j]) {
        assert Fits(HasEvidence(s, j), s.failureOverride.Some?, j, k);
      }
      forall j | 0 <= j < 10 && HasEvidence(s, j) ensures NODES[j] in BeforeRoute(s) {
        assert Fits(HasEvidence(s, j), s.failureOverride.Some?, j, k);
      }
    }
  }

  /** Nothing of it is about which nodes have run. */
  predicate ValuesOk(s: State) {
    && s.attempt <= 1
    && (s.baseline.Some? ==> ValidBaseline(s.baseline.value))
    && (s.staticReport.Some? ==> G.ValidReport(s.staticReport.value))
    && (s.verification.Some? ==> V.ValidResult(s.verification.value.stages, s.verification.value.verdict))
    && IdentitiesOk(s) && OverrideOk(s)
  }

  /** An unrouted state after the first `k` nodes. */
  predicate After(s: State, k: nat)
    requires k <= 10
  {
    s.nodes == NODES[..k] && s.route.None? && s.completedAt.None? && ValuesOk(s) && EvidenceUpTo(s, k)
  }

  lemma AfterIsInvariant(s: State, k: nat)
    requires k <= 10 && s.nodes == NODES[..k] && s.route.None? && s.completedAt.None?
    ensures Invariant(s) <==> After(s, k)
  {
    hide EvidenceUpTo, EvidenceOk, IdentitiesOk, OverrideOk, ValidBaseline, G.ValidReport, V.ValidResult;
    AtPrefix(s, k);
    EvidenceAt(s, k);
  }

  /** Finishing the next node succeeds exactly when the new state is consistent. */
  lemma FinishNext(s: State, k: nat, updated: State)
    requires k < 10 && After(s, k) && updated.route.None? && updated.completedAt.None?
    ensures var t := updated.(nodes := NODES[..k + 1]);
            Finish(s, NODES[k], updated) == if After(t, k + 1) then Some(t) else None
  {
    hide After, Invariant;
    PrefixNodes(k);
    IsAfter(s, k);
    AfterIsInvariant(updated.(nodes := NODES[..k + 1]), k + 1);
  }

  lemma IsAfter(s: State, k: nat)
    requires k <= 10 && After(s, k)
    ensures s.nodes == NODES[..k] && s.route.None? && s.completedAt.None? && ValuesOk(s) && EvidenceUpTo(s, k)
  {
  }

  predicate Reproduced(s: State) {
    s.baseline.Some? && s.baseline.value.outcome == ReproducedFailure
  }

  predicate StaticApproved(s: State) {
    s.staticReport.Some? && s.staticReport.value.outcome == G.Approved
  }

  /** What holds of a run that goes on, or is about to be routed, beyond the validator. */
  predicate Progress(s: State, k: nat) {
    && s.attempt == (if k >= 5 then 1 else 0)
    && (k >= 3 ==> Reproduced(s))
  }

  predicate Evaluated(s: State) {
    s.verification.Some? && s.evaluation.Some? && s.evaluation.value.status == StatusOf(s.verification.value.verdict)
  }

  /** The run is about to execute node `k`. */
  predicate Position(s: State, k: nat)
    requires k <= 10
  {
    && After(s, k) && s.failureOverride.None? && Progress(s, k)
    && (k >= 5 ==> s.configuration.Some?)
    && (k >= 2 ==> Reproduced(s))
    && (k >= 7 ==> s.policy == Some(true))
    && (k >= 8 ==> StaticApproved(s))
  }

  /** The run has executed its last node before routing, the `k`-th. */
  predicate Ended(s: State, k: nat)
    requires k <= 10
  {
    && 1 <= k && After(s, k) && Progress(s, k)
    && (k >= 6 ==> s.configuration.Some?)
    && (k >= 8 ==> s.policy == Some(true))
    && (k >= 9 ==> StaticApproved(s))
    && match s.failureOverride
       case Some(outcome) =>
         && !HasEvidence(s, k - 1)
         && (outcome == InfrastructureFailure || (outcome in EARLY_OUTCOMES && k in {5, 6} && s.configuration.Some?))
       case None =>
         || (k == 2 && !Reproduced(s))
         || (k == 7 && s.policy == Some(false))
         || (k == 8 && !StaticApproved(s))
         || (k == 10 && Evaluated(s))
  }

  /** Usage snapshots are absent or complete where a model call failed. */
  predicate UsageOk(b: Behaviour) {
    && (b.planFailureUsage.Snapshot? ==> Complete(b.planFailureUsage.usage))
    && (b.patchFailureUsage.Snapshot? ==> Complete(b.patchFailureUsage.usage))
  }

  lemma MissingNext(s: State, k: nat, t: State)
    requires k < 10 && EvidenceUpTo(s, k) && s.failureOverride.None? && t == s.(failureOverride := t.failureOverride, nodes := t.nodes)
    ensures !HasEvidence(t, k)
    ensures t.failureOverride.Some? ==> EvidenceUpTo(t, k + 1)
  {
  }

  lemma OverriddenValues(s: State, t: State)
    requires ValuesOk(s) && t == s.(failureOverride := Some(InfrastructureFailure), nodes := t.nodes)
    ensures ValuesOk(t)
  {
    hide ValidBaseline, G.ValidReport, V.ValidResult;
  }

  /** A node that fails is recorded with the failure, and the state stays consistent. */
  lemma FailureEnds(s: State, k: nat)
    requires k < 10 && Position(s, k) && k != 4
    ensures var t := Failure(s, NODES[k], InfrastructureFailure); t.Some? && Ended(t.value, k + 1)
  {
    hide HasEvidence, ValuesOk, EvidenceUpTo, Finish;
    var updated := s.(failureOverride := Some(InfrastructureFailure));
    var t := updated.(nodes := NODES[..k + 1]);
    FinishNext(s, k, updated);
    MissingNext(s, k, t);
    OverriddenValues(s, t);
  }

  lemma StepPrepare(s: State, b: Behaviour)
    requires Position(s, 0)
    ensures var t := DoPrepare(s, b); t.Some? && if GoesOn(t.value, 0) then Position(t.value, 1) else Ended(t.value, 1)
  {
    FailureEnds(s, 0);
    FinishNext(s, 0, s.(preparation := b.prepared));
  }

  lemma StepBaseline(s: State, b: Behaviour)
    requires Position(s, 1)
    ensures var t := DoBaseline(s, b); t.Some? && if GoesOn(t.value, 1) then Position(t.value, 2) else Ended(t.value, 2)
  {
    hide ValidBaseline;
    FailureEnds(s, 1);
    FinishNext(s, 1, s.(baseline := b.baseline, legacy := s.legacy.(baseline := b.baseline)));
  }

  lemma StepClassify(s: State, b: Behaviour)
    requires Position(s, 2)
    ensures var t := DoClassify(s, b); t.Some? && if GoesOn(t.value, 2) then Position(t.value, 3) else Ended(t.value, 3)
  {
    hide ValidBaseline;
    FailureEnds(s, 2);
    FinishNext(s, 2, s.(analysis := b.analysis, legacy := s.legacy.(analysis := b.analysis)));
  }

  lemma StepContext(s: State, b: Behaviour)
    requires Position(s, 3)
    ensures var t := DoContext(s, b); t.Some? && if GoesOn(t.value, 3) then Position(t.value, 4) else Ended(t.value, 4)
  {
    hide ValidBaseline;
    FailureEnds(s, 3);
    FinishNext(s, 3, s.(context := b.context));
  }

  lemma AttemptFailureEnds(s: State, b: Behaviour, outcome: TerminalOutcome)
    requires Position(s, 4) && UsageOk(b)
    requires outcome == InfrastructureFailure || (outcome in EARLY_OUTCOMES && s.configuration.Some?)
    ensures var t := AttemptFailure(s, b, outcome); t.Some? && Ended(t.value, 5)
  {
    hide ValidBaseline, G.ValidReport, V.ValidResult, Finish, Invariant;
    var final := if b.planFailureClock.None? || b.planFailureUsage.ReaderRaises? then InfrastructureFailure else outcome;
    var updated := s.(attempt := 1, legacy := s.legacy.(attempt := 1), failureOverride := Some(final));
    FinishNext(s, 4, WithUsage(updated, b.planFailureUsage));
  }

  lemma StepPlan(s: State, b: Behaviour)
    requires Position(s, 4) && UsageOk(b)
    ensures var t := DoPlan(s, b); t.Some? && if GoesOn(t.value, 4) then Position(t.value, 5) else Ended(t.value, 5)
  {
    hide ValidBaseline, G.ValidReport, V.ValidResult, Finish, Invariant;
    AttemptFailureEnds(s, b, InfrastructureFailure);
    if b.planned.ModelError? && s.configuration.Some? {
      AttemptFailureEnds(s, b, ModelFailure(b.planned.code));
    }
    if b.planned.Answered? {
      var plan := Some(b.planned.value);
      var updated := s.(plan := plan, attempt := 1, legacy := s.legacy.(plan := plan, attempt := 1));
      FinishNext(s, 4, WithUsage(updated, b.planUsage));
    }
  }

  predicate Partial(answer: UsageAnswer) {
    && answer.Snapshot?
    && var usage := answer.usage;
    usage.latency.None? || usage.inputTokens.None? || usage.outputTokens.None? || usage.cost.None?
  }

  /** The planner answered, with a clock and a usage reader that work. */
  predicate PlanSucceeds(s: State, b: Behaviour) {
    && b.modelConfiguration.Some? && b.hasProvider && s.configuration == b.modelConfiguration
    && b.planned.Answered? && b.planClock.Some? && !b.planUsage.ReaderRaises? && !Partial(b.planUsage)
  }

  /** The planning node raises exactly when it fails and the usage read for the failure is partial. */
  lemma PlanRaises(s: State, b: Behaviour)
    requires Position(s, 4)
    ensures DoPlan(s, b).None? <==> !PlanSucceeds(s, b) && Partial(b.planFailureUsage)
  {
    hide ValidBaseline, G.ValidReport, V.ValidResult, Finish, Invariant;
    if !Partial(b.planFailureUsage) {
      var complete := b.(patchFailureUsage := NoReader);
      StepPlan(s, complete);
      SamePlan(s, b, complete);
    } else {
      PartialAttemptRaises(s, b, InfrastructureFailure);
      PartialAttemptRaises(s, b, if b.planned.ModelError? then ModelFailure(b.planned.code) else InfrastructureFailure);
      if b.planned.Answered? {
        var plan := Some(b.planned.value);
        var updated := s.(plan := plan, attempt := 1, legacy := s.legacy.(plan := plan, attempt := 1));
        FinishNext(s, 4, WithUsage(updated, b.planUsage));
      }
    }
  }

  lemma SamePlan(s: State, b: Behaviour, other: Behaviour)
    requires other == b.(patchFailureUsage := other.patchFailureUsage)
    ensures DoPlan(s, b) == DoPlan(s, other)
  {
    hide Invariant;
  }

  lemma PartialAttemptRaises(s: State, b: Behaviour, outcome: TerminalOutcome)
    requires Position(s, 4) && Partial(b.planFailureUsage)
    ensures AttemptFailure(s, b, outcome).None?
  {
    hide ValidBaseline, G.ValidReport, V.ValidResult, Finish, Invariant;
    var final := if b.planFailureClock.None? || b.planFailureUsage.ReaderRaises? then InfrastructureFailure else outcome;
    var updated := s.(attempt := 1, legacy := s.legacy.(attempt := 1), failureOverride := Some(final));
    FinishNext(s, 4, WithUsage(updated, b.planFailureUsage));
  }

  lemma PatchFailureEnds(s: State, b: Behaviour, outcome: TerminalOutcome)
    requires Position(s, 5) && UsageOk(b)
    requires outcome == InfrastructureFailure || outcome in EARLY_OUTCOMES
    ensures var t := PatchFailure(s, b, outcome); t.Some? && Ended(t.value, 6)
  {
    hide ValidBaseline, G.ValidReport, V.ValidResult, Finish, Invariant;
    var final := if b.patchFailureUsage.ReaderRaises? then InfrastructureFailure else outcome;
    FinishNext(s, 5, WithUsage(s.(failureOverride := Some(final)), b.patchFailureUsage));
  }

  lemma StepPatch(s: State, b: Behaviour)
    requires Position(s, 5) && UsageOk(b)
    ensures var t := DoPatch(s, b); t.Some? && if GoesOn(t.value, 5) then Position(t.value, 6) else Ended(t.value, 6)
  {
    hide ValidBaseline, G.ValidReport, V.ValidResult, Finish, Invariant;
    PatchFailureEnds(s, b, InfrastructureFailure);
    if b.patched.ModelError? {
      PatchFailureEnds(s, b, ModelFailure(b.patched.code));
    }
    if b.patched.Answered? {
      var proposal := Some(b.patched.value);
      var updated := s.(proposal := proposal, legacy := s.legacy.(patch := proposal));
      FinishNext(s, 5, WithUsage(updated, b.patchUsage));
    }
  }

  /** The patch generator answered, with a clock and a usage reader that work. */
  predicate PatchSucceeds(b: Behaviour) {
    && b.modelConfiguration.Some? && b.hasProvider
    && b.patched.Answered? && b.patchClock.Some? && !b.patchUsage.ReaderRaises? && !Partial(b.patchUsage)
  }

  /** The patch node raises exactly when it fails and the usage read for the failure is partial. */
  lemma PatchRaises(s: State, b: Behaviour)
    requires Position(s, 5)
    ensures DoPatch(s, b).None? <==> !PatchSucceeds(b) && Partial(b.patchFailureUsage)
  {
    hide ValidBaseline, G.ValidReport, V.ValidResult, Finish, Invariant;
    if !Partial(b.patchFailureUsage) {
      var complete := b.(planFailureUsage := NoReader);
      StepPatch(s, complete);
      SamePatch(s, b, complete);
    } else {
      PartialPatchRaises(s, b, InfrastructureFailure);
      PartialPatchRaises(s, b, if b.patched.ModelError? then ModelFailure(b.patched.code) else InfrastructureFailure);
      if b.patched.Answered? {
        var proposal := Some(b.patched.value);
        var updated := s.(proposal := proposal, legacy := s.legacy.(patch := proposal));
        FinishNext(s, 5, WithUsage(updated, b.patchUsage));
      }
    }
  }

  lemma SamePatch(s: State, b: Behaviour, other: Behaviour)
    requires other == b.(planFailureUsage := other.planFailureUsage)
    ensures DoPatch(s, b) == DoPatch(s, other)
  {
    hide Invariant;
  }

  lemma PartialPatchRaises(s: State, b: Behaviour, outcome: TerminalOutcome)
    requires Position(s, 5) && Partial(b.patchFailureUsage)
    ensures PatchFailure(s, b, outcome).None?
  {
    hide ValidBaseline, G.ValidReport, V.ValidResult, Finish, Invariant;
    var final := if b.patchFailureUsage.ReaderRaises? then InfrastructureFailure else outcome;
    FinishNext(s, 5, WithUsage(s.(failureOverride := Some(final)), b.patchFailureUsage));
  }

  lemma StepPolicy(s: State, b: Behaviour)
    requires Position(s, 6)
    ensures var t := DoPolicy(s, b); t.Some? && if GoesOn(t.value, 6) then Position(t.value, 7) else Ended(t.value, 7)
  {
    hide ValidBaseline;
    FailureEnds(s, 6);
    FinishNext(s, 6, s.(policy := b.policy));
    if b.policy.Some? {
      assert b.policy.value || b.policy == Some(false);
    }
  }

  lemma StepStatic(s: State, b: Behaviour)
    requires Position(s, 7)
    ensures var t := DoStatic(s, b); t.Some? && if GoesOn(t.value, 7) then Position(t.value, 8) else Ended(t.value, 8)
  {
    hide ValidBaseline, G.ValidReport;
    FailureEnds(s, 7);
    FinishNext(s, 7, s.(staticReport := b.staticReport));
  }

  lemma StepVerify(s: State, b: Behaviour)
    requires Position(s, 8)
    ensures var t := DoVerify(s, b); t.Some? && if GoesOn(t.value, 8) then Position(t.value, 9) else Ended(t.value, 9)
  {
    hide ValidBaseline, G.ValidReport, V.ValidResult;
    FailureEnds(s, 8);
    FinishNext(s, 8, s.(verification := b.verified));
  }

  lemma StepEvaluate(s: State, b: Behaviour)
    requires Position(s, 9)
    ensures var t := DoEvaluate(s, b); t.Some? && !GoesOn(t.value, 9) && Ended(t.value, 10)
  {
    hide ValidBaseline, G.ValidReport, V.ValidResult;
    FailureEnds(s, 9);
    FinishNext(s, 9, s.(evaluation := b.evaluated));
  }

  /** Whatever its boundary does, a node leaves a consistent state, to go on from or to be routed. */
  lemma NodeStep(s: State, k: nat, b: Behaviour)
    requires k < 10 && Position(s, k) && UsageOk(b)
    ensures var t := Execute(s, k, b); t.Some? && if GoesOn(t.value, k) then Position(t.value, k + 1) else Ended(t.value, k + 1)
  {
    hide Position, Ended, GoesOn, DoPrepare, DoBaseline, DoClassify, DoContext, DoPlan, DoPatch, DoPolicy, DoStatic,
        DoVerify, DoEvaluate;
    match k {
      case 0 => StepPrepare(s, b);
      case 1 => StepBaseline(s, b);
      case 2 => StepClassify(s, b);
      case 3 => StepContext(s, b);
      case 4 => StepPlan(s, b);
      case 5 => StepPatch(s, b);
      case 6 => StepPolicy(s, b);
      case 7 => StepStatic(s, b);
      case 8 => StepVerify(s, b);
      case _ => StepEvaluate(s, b);
    }
  }

  // ---------------------------------------------------------------- terminal states

  /** A routed state is an ended run with its route. */
  function Routed(s: State, outcome: TerminalOutcome, completedAt: int): State {
    s.(route := Some(RouteFor(outcome)), completedAt := Some(completedAt), nodes := s.nodes + [RouteResult])
  }

  lemma AtRoute(s: State, k: nat)
    requires k <= 10 && s.nodes == NODES[..k] + [RouteResult]
    ensures BeforeRoute(s) == NODES[..k] && NodesOk(s)
  {
    PrefixNodes(k);
    assert s.nodes[..|s.nodes| - 1] == NODES[..k];
  }

  /** A routed state is consistent exactly when its values are, its evidence fits, it does not end
      before it starts and its route is the one its evidence gives. */
  lemma RoutedInvariant(t: State, k: nat)
    requires k <= 10 && t.nodes == NODES[..k] + [RouteResult] && t.route.Some? && t.completedAt.Some?
    ensures Invariant(t) <==>
              ValuesOk(t) && EvidenceUpTo(t, k) && t.completedAt.value >= t.startedAt && RouteState(t) == t.route
  {
    hide EvidenceUpTo, EvidenceOk, IdentitiesOk, OverrideOk, ValidBaseline, G.ValidReport, V.ValidResult,
        RouteState, BeforeRoute;
    AtRoute(t, k);
    EvidenceAt(t, k);
    assert t.nodes[|t.nodes| - 1] == RouteResult;
  }

  /** The evidence of an ended run is never refused. */
  lemma EndedRoutes(s: State, k: nat)
    requires k <= 10 && Ended(s, k)
    ensures RoutingEvidenceOk(s)
  {
    hide ValidBaseline, G.ValidReport, V.ValidResult, IdentitiesOk;
  }

  /** The routing node succeeds exactly when the clock gives a time that is not before the start. */
  lemma RouteStep(s: State, k: nat, b: Behaviour)
    requires k <= 10 && Ended(s, k)
    ensures DoRoute(s, b) ==
              if b.routeClock.Some? && b.routeClock.value >= s.startedAt
              then Some(Routed(s, RouteTerminal(s), b.routeClock.value)) else None
    ensures b.routeClock.Some? && b.routeClock.value >= s.startedAt ==>
              Terminal(Routed(s, RouteTerminal(s), b.routeClock.value), k)
  {
    hide RoutingEvidenceOk, EvidenceUpTo, ValuesOk, Invariant, Progress;
    EndedRoutes(s, k);
    if b.routeClock.Some? {
      var t := Routed(s, RouteTerminal(s), b.routeClock.value);
      RoutedInvariant(t, k);
      PrefixNodes(k);
      SameValues(s, t, k);
    }
  }

  /** Routing changes no evidence. */
  lemma SameValues(s: State, t: State, k: nat)
    requires t == s.(route := t.route, completedAt := t.completedAt, nodes := t.nodes)
    ensures ValuesOk(s) <==> ValuesOk(t)
    ensures EvidenceUpTo(s, k) <==> EvidenceUpTo(t, k)
    ensures RoutingEvidenceOk(s) <==> RoutingEvidenceOk(t)
    ensures RouteTerminal(s) == RouteTerminal(t)
    ensures Progress(s, k) <==> Progress(t, k)
  {
    hide ValidBaseline, G.ValidReport, V.ValidResult;
  }

  /** A run that is over: some first nodes, then routing, once; a consistent state. */
  ghost predicate Terminal(t: State, k: nat) {
    && 1 <= k <= 10
    && t.nodes == NODES[..k] + [RouteResult]
    && t.route.Some?
    && Invariant(t)
    && exists s: State :: Ended(s, k) && t == Routed(s, RouteTerminal(s), if t.completedAt.Some? then t.completedAt.value else 0)
  }

  /** From any place, every run ends in a terminal state, or raises because the last clock failed or went back. */
  lemma {:induction false} RunFromEnds(s: State, k: nat, b: Behaviour)
    requires k < 10 && Position(s, k) && UsageOk(b)
    ensures RunFrom(s, k, b).None? <==> b.routeClock.None? || b.routeClock.value < s.startedAt
    ensures RunFrom(s, k, b).Some? ==> exists n :: Terminal(RunFrom(s, k, b).value, n)
    decreases 10 - k
  {
    hide Position, Ended, GoesOn, Execute, DoRoute, Terminal;
    NodeStep(s, k, b);
    var t := Execute(s, k, b).value;
    SameStart(s, k, b);
    if GoesOn(t, k) {
      GoesOnBeforeLast(t, k);
      RunFromEnds(t, k + 1, b);
    } else {
      RouteStep(t, k + 1, b);
    }
  }

  lemma GoesOnBeforeLast(s: State, k: nat)
    requires k < 10 && GoesOn(s, k)
    ensures k < 9
  {
  }

  lemma SameStart(s: State, k: nat, b: Behaviour)
    requires k < 10 && Execute(s, k, b).Some?
    ensures Execute(s, k, b).value.startedAt == s.startedAt
  {
    hide Invariant;
  }

  lemma NewStateAtStart(caseId: string, startedAt: int, configuration: Option<Configuration>)
    ensures Position(NewState(caseId, startedAt, configuration), 0)
  {
  }

  /** Every run of every new state, whatever the boundaries do, ends terminal and consistent: with a usage
      reader that is absent or complete, it raises exactly when the last clock fails or goes back. */
  lemma EveryRunEnds(caseId: string, startedAt: int, configuration: Option<Configuration>, b: Behaviour)
    requires UsageOk(b)
    ensures var r := Run(caseId, startedAt, configuration, b);
            && (r.None? <==> b.routeClock.None? || b.routeClock.value < startedAt)
            && (r.Some? ==> exists n :: Terminal(r.value, n))
  {
    hide Position, Terminal, RunFrom;
    NewStateAtStart(caseId, startedAt, configuration);
    RunFromEnds(NewState(caseId, startedAt, configuration), 0, b);
  }

  lemma FullPrefix(nodes: seq<Node>)
    requires |nodes| <= 11 && nodes == NODES[..|nodes|]
    ensures |nodes| == 11 ==> RouteResult in nodes
  {
    assert |nodes| == 11 ==> nodes[10] == NODES[10];
  }

  /** Success is never routed without the whole run behind it. */
  lemma SuccessMeans(t: State)
    requires Invariant(t) && t.route == Some(RouteFor(Success))
    ensures t.nodes == NODES && t.failureOverride.None?
    ensures t.policy == Some(true) && StaticApproved(t) && Reproduced(t)
    ensures t.verification.Some? && t.verification.value.verdict == V.AllPassed
    ensures t.evaluation.Some? && t.evaluation.value.status == FunctionalPassed
  {
    hide ValidBaseline, G.ValidReport, V.ValidResult, IdentitiesOk;
    assert HasEvidence(t, 9);
    var before := BeforeRoute(t);
    assert NODES[9] in before;
    assert before == NODES[..|before|];
    assert t.nodes == before + [RouteResult];
    assert |before| >= 10;
    assert RouteResult !in before;
    FullPrefix(before);
    assert NODES == NODES[..10] + [RouteResult];
  }

  // ---------------------------------------------------------------- replacing and ending early

  /** `replace_with_infrastructure_failure`: none when it raises. */
  function ReplaceWithInfrastructureFailure(s: State, completedAt: int): Option<State> {
    if !Invariant(s) || s.route.None? then None
    else
      var t := s.(failureOverride := Some(InfrastructureFailure), route := Some(RouteFor(InfrastructureFailure)), completedAt := Some(completedAt));
      if Invariant(t) then Some(t) else None
  }

  /** `terminalize_infrastructure_failure`: none when it raises. */
  function Terminalize(s: State, completedAt: int): Option<State> {
    if !Invariant(s) || s.route.Some? || RouteResult in s.nodes then None
    else
      var t := s.(failureOverride := Some(InfrastructureFailure), route := Some(RouteFor(InfrastructureFailure)),
                  completedAt := Some(completedAt), nodes := s.nodes + [RouteResult]);
      if Invariant(t) then Some(t) else None
  }

  /** Evidence of a run at any place, or ended, is not refused once the outcome is overridden by an infrastructure failure. */
  lemma OverriddenRoutes(s: State, k: nat)
    requires k <= 10 && (Position(s, k) || Ended(s, k))
    ensures RoutingEvidenceOk(s.(failureOverride := Some(InfrastructureFailure)))
    ensures EvidenceUpTo(s.(failureOverride := Some(InfrastructureFailure)), k)
    ensures ValuesOk(s.(failureOverride := Some(InfrastructureFailure)))
  {
    hide ValidBaseline, G.ValidReport, V.ValidResult;
  }

  /** Ending a run early works at every place of it, as long as the clock does not go back. */
  lemma TerminalizeWorks(s: State, k: nat, completedAt: int)
    requires k <= 10 && (Position(s, k) || Ended(s, k))
    ensures Terminalize(s, completedAt).Some? <==> completedAt >= s.startedAt
  {
    hide ValuesOk, EvidenceUpTo, RoutingEvidenceOk, Invariant;
    PlaceIsAfter(s, k);
    AfterIsInvariant(s, k);
    AtPrefix(s, k);
    OverriddenRoutes(s, k);
    var o := s.(failureOverride := Some(InfrastructureFailure));
    var t := Routed(o, InfrastructureFailure, completedAt);
    RoutedInvariant(t, k);
    SameValues(o, t, k);
  }

  lemma PlaceIsAfter(s: State, k: nat)
    requires k <= 10 && (Position(s, k) || Ended(s, k))
    ensures After(s, k)
  {
  }

  /** Replacing the outcome of a finished run works, as long as the clock does not go back. */
  lemma ReplaceWorks(t: State, k: nat, completedAt: int)
    requires Terminal(t, k)
    ensures ReplaceWithInfrastructureFailure(t, completedAt).Some? <==> completedAt >= t.startedAt
  {
    hide ValuesOk, EvidenceUpTo, RoutingEvidenceOk, Invariant, Ended, RouteTerminal;
    var s :| Ended(s, k) && t == Routed(s, RouteTerminal(s), if t.completedAt.Some? then t.completedAt.value else 0);
    OverriddenRoutes(s, k);
    OverriddenRoute(s);
    PlaceIsAfter(s, k);
    var o := s.(failureOverride := Some(InfrastructureFailure));
    var r := Routed(o, InfrastructureFailure, completedAt);
    RoutedInvariant(r, k);
    SameValues(o, r, k);
  }

  lemma OverriddenRoute(s: State)
    ensures RouteTerminal(s.(failureOverride := Some(InfrastructureFailure))) == InfrastructureFailure
  {
  }

  // ---------------------------------------------------------------- which outcome

  /** What one stage of a run comes to. */
  datatype Turn = Onward | Stop(outcome: TerminalOutcome)

  /** The usage known once the planner, and then the patch generator, have answered. */
  function UsageAfterPlan(b: Behaviour): Option<Usage> {
    if b.planUsage.Snapshot? then Some(b.planUsage.usage) else None
  }

  function UsageAfterPatch(b: Behaviour): Option<Usage> {
    if b.patchUsage.Snapshot? then Some(b.patchUsage.usage) else UsageAfterPlan(b)
  }

  predicate Configured(configuration: Option<Configuration>, b: Behaviour) {
    b.modelConfiguration.Some? && b.hasProvider && configuration == b.modelConfiguration
  }

  function PlanTurn(configuration: Option<Configuration>, b: Behaviour): Turn {
    if !Configured(configuration, b) then Stop(InfrastructureFailure)
    else if b.planned.Answered? && b.planClock.Some? && !b.planUsage.ReaderRaises? && !Partial(b.planUsage) then Onward
    else if b.planned.ModelError? && b.planFailureClock.Some? && !b.planFailureUsage.ReaderRaises? then
      Stop(ModelFailure(b.planned.code))
    else Stop(InfrastructureFailure)
  }

  function PatchTurn(b: Behaviour): Turn {
    if b.patched.Answered? && b.patchClock.Some? && !b.patchUsage.ReaderRaises? && !Partial(b.patchUsage) then Onward
    else if b.patched.ModelError? && !b.patchFailureUsage.ReaderRaises? then Stop(ModelFailure(b.patched.code))
    else Stop(InfrastructureFailure)
  }

  function EvaluationTurn(caseId: string, b: Behaviour): Turn
    requires b.verified.Some?
  {
    var usage := UsageAfterPatch(b);
    var expected := Evaluation(caseId, StatusOf(b.verified.value.verdict), if usage.None? then NO_USAGE else usage.value);
    if b.evaluated != Some(expected) then Stop(InfrastructureFailure)
    else
      match b.verified.value.verdict
      case AllPassed => Stop(Success)
      case CandidateFailed => Stop(CandidateFailure)
      case InfrastructureDiagnostic => Stop(InfrastructureFailure)
  }

  /** The stages in order, by what their own boundaries did. */
  function TurnAt(k: nat, caseId: string, configuration: Option<Configuration>, b: Behaviour): Turn
    requires k < 10
  {
    match k
    case 0 => if b.prepared.Some? && b.prepared.value.caseId == caseId then Onward else Stop(InfrastructureFailure)
    case 1 =>
      if b.baseline.None? || !ValidBaseline(b.baseline.value) || b.baselineClock.None?
        || Some(b.baseline.value.preparation) != b.prepared
      then Stop(InfrastructureFailure)
      else if b.baseline.value.outcome == ReproducedFailure then Onward
      else if b.baseline.value.outcome == NotReproducible then Stop(BaselineNotReproducible)
      else Stop(InfrastructureFailure)
    case 2 => if b.analysis.Some? && b.analysisClock.Some? then Onward else Stop(InfrastructureFailure)
    case 3 =>
      if b.analysis.Some? && b.context == Some(Context(caseId, b.analysis.value)) then Onward else Stop(InfrastructureFailure)
    case 4 => PlanTurn(configuration, b)
    case 5 => PatchTurn(b)
    case 6 =>
      if b.policy.None? then Stop(InfrastructureFailure) else if b.policy.value then Onward else Stop(PolicyViolation)
    case 7 =>
      if b.staticReport.None? || !G.ValidReport(b.staticReport.value) then Stop(InfrastructureFailure)
      else if b.staticReport.value.outcome == G.Approved then Onward
      else if b.staticReport.value.outcome == G.CandidateFailed then Stop(StaticCheckFailure)
      else Stop(InfrastructureFailure)
    case 8 =>
      if b.verified.Some? && V.ValidResult(b.verified.value.stages, b.verified.value.verdict) then Onward
      else Stop(InfrastructureFailure)
    case _ => if b.verified.Some? then EvaluationTurn(caseId, b) else Stop(InfrastructureFailure)
  }

  /** The first stage that stops the run decides its outcome. */
  function OutcomeFrom(k: nat, caseId: string, configuration: Option<Configuration>, b: Behaviour): TerminalOutcome
    requires k < 10
    decreases 10 - k
  {
    match TurnAt(k, caseId, configuration, b)
    case Stop(outcome) => outcome
    case Onward => if k < 9 then OutcomeFrom(k + 1, caseId, configuration, b) else InfrastructureFailure
  }

  /** The state holds what the boundaries gave so far. */
  predicate Holds(s: State, k: nat, b: Behaviour) {
    && (k > 0 ==> s.preparation == b.prepared)
    && (k > 1 ==> s.baseline == b.baseline)
    && (k > 2 ==> s.analysis == b.analysis)
    && (k > 4 ==> s.usage == (if k > 5 then UsageAfterPatch(b) else UsageAfterPlan(b)))
    && (k > 4 ==> b.modelConfiguration.Some? && b.hasProvider)
    && (k > 8 ==> s.verification == b.verified)
  }

  /** What a node does is what its stage's turn says. */
  ghost predicate Obeys(s: State, k: nat, t: State, b: Behaviour)
    requires k < 10
  {
    && t.caseId == s.caseId && t.configuration == s.configuration
    && match TurnAt(k, s.caseId, s.configuration, b)
       case Onward => GoesOn(t, k) && Holds(t, k + 1, b)
       case Stop(outcome) => !GoesOn(t, k) && RouteTerminal(t) == outcome
  }

  lemma FailureRoutes(s: State, k: nat, outcome: TerminalOutcome)
    requires k < 10 && Failure(s, NODES[k], outcome).Some?
    ensures RouteTerminal(Failure(s, NODES[k], outcome).value) == outcome
    ensures !GoesOn(Failure(s, NODES[k], outcome).value, k)
    ensures Failure(s, NODES[k], outcome).value.caseId == s.caseId
    ensures Failure(s, NODES[k], outcome).value.configuration == s.configuration
  {
    hide Invariant;
  }

  lemma TurnPrepare(s: State, b: Behaviour)
    requires Position(s, 0) && Holds(s, 0, b)
    ensures DoPrepare(s, b).Some? && Obeys(s, 0, DoPrepare(s, b).value, b)
  {
    hide Finish, Invariant;
    FailureEnds(s, 0);
    FailureRoutes(s, 0, InfrastructureFailure);
    FinishNext(s, 0, s.(preparation := b.prepared));
  }

  lemma TurnBaseline(s: State, b: Behaviour)
    requires Position(s, 1) && Holds(s, 1, b)
    ensures DoBaseline(s, b).Some? && Obeys(s, 1, DoBaseline(s, b).value, b)
  {
    hide Finish, Invariant, ValidBaseline;
    FailureEnds(s, 1);
    FailureRoutes(s, 1, InfrastructureFailure);
    FinishNext(s, 1, s.(baseline := b.baseline, legacy := s.legacy.(baseline := b.baseline)));
  }

  lemma TurnClassify(s: State, b: Behaviour)
    requires Position(s, 2) && Holds(s, 2, b)
    ensures DoClassify(s, b).Some? && Obeys(s, 2, DoClassify(s, b).value, b)
  {
    hide Finish, Invariant, ValidBaseline;
    FailureEnds(s, 2);
    FailureRoutes(s, 2, InfrastructureFailure);
    FinishNext(s, 2, s.(analysis := b.analysis, legacy := s.legacy.(analysis := b.analysis)));
  }

  lemma TurnContext(s: State, b: Behaviour)
    requires Position(s, 3) && Holds(s, 3, b)
    ensures DoContext(s, b).Some? && Obeys(s, 3, DoContext(s, b).value, b)
  {
    hide Finish, Invariant, ValidBaseline;
    FailureEnds(s, 3);
    FailureRoutes(s, 3, InfrastructureFailure);
    FinishNext(s, 3, s.(context := b.context));
  }

  lemma AttemptFailureRoutes(s: State, b: Behaviour, outcome: TerminalOutcome)
    requires AttemptFailure(s, b, outcome).Some?
    ensures var t := AttemptFailure(s, b, outcome).value;
            && !GoesOn(t, 4) && t.caseId == s.caseId && t.configuration == s.configuration
            && RouteTerminal(t) ==
                 if b.planFailureClock.None? || b.planFailureUsage.ReaderRaises? then InfrastructureFailure else outcome
  {
    hide Invariant;
  }

  lemma TurnPlan(s: State, b: Behaviour)
    requires Position(s, 4) && Holds(s, 4, b) && UsageOk(b)
    ensures DoPlan(s, b).Some? && Obeys(s, 4, DoPlan(s, b).value, b)
  {
    hide Finish, Invariant, ValidBaseline, G.ValidReport, V.ValidResult, AttemptFailure, RouteTerminal;
    AttemptFailureEnds(s, b, InfrastructureFailure);
    AttemptFailureRoutes(s, b, InfrastructureFailure);
    if b.planned.ModelError? && s.configuration.Some? {
      AttemptFailureEnds(s, b, ModelFailure(b.planned.code));
      AttemptFailureRoutes(s, b, ModelFailure(b.planned.code));
    }
    if b.planned.Answered? {
      var plan := Some(b.planned.value);
      var updated := s.(plan := plan, attempt := 1, legacy := s.legacy.(plan := plan, attempt := 1));
      FinishNext(s, 4, WithUsage(updated, b.planUsage));
    }
  }

  lemma PatchFailureRoutes(s: State, b: Behaviour, outcome: TerminalOutcome)
    requires PatchFailure(s, b, outcome).Some?
    ensures var t := PatchFailure(s, b, outcome).value;
            && !GoesOn(t, 5) && t.caseId == s.caseId && t.configuration == s.configuration
            && RouteTerminal(t) == if b.patchFailureUsage.ReaderRaises? then InfrastructureFailure else outcome
  {
    hide Invariant;
  }

  lemma TurnPatch(s: State, b: Behaviour)
    requires Position(s, 5) && Holds(s, 5, b) && UsageOk(b)
    ensures DoPatch(s, b).Some? && Obeys(s, 5, DoPatch(s, b).value, b)
  {
    hide Finish, Invariant, ValidBaseline, G.ValidReport, V.ValidResult, PatchFailure, RouteTerminal;
    PatchFailureEnds(s, b, InfrastructureFailure);
    PatchFailureRoutes(s, b, InfrastructureFailure);
    if b.patched.ModelError? {
      PatchFailureEnds(s, b, ModelFailure(b.patched.code));
      PatchFailureRoutes(s, b, ModelFailure(b.patched.code));
    }
    if b.patched.Answered? {
      var proposal := Some(b.patched.value);
      var updated := s.(proposal := proposal, legacy := s.legacy.(patch := proposal));
      FinishNext(s, 5, WithUsage(updated, b.patchUsage));
    }
  }

  lemma TurnPolicy(s: State, b: Behaviour)
    requires Position(s, 6) && Holds(s, 6, b)
    ensures DoPolicy(s, b).Some? && Obeys(s, 6, DoPolicy(s, b).value, b)
  {
    hide Finish, Invariant, ValidBaseline;
    FailureEnds(s, 6);
    FailureRoutes(s, 6, InfrastructureFailure);
    FinishNext(s, 6, s.(policy := b.policy));
    if b.policy.Some? {
      assert b.policy.value || b.policy == Some(false);
    }
  }

  lemma TurnStatic(s: State, b: Behaviour)
    requires Position(s, 7) && Holds(s, 7, b)
    ensures DoStatic(s, b).Some? && Obeys(s, 7, DoStatic(s, b).value, b)
  {
    hide Finish, Invariant, ValidBaseline, G.ValidReport;
    FailureEnds(s, 7);
    FailureRoutes(s, 7, InfrastructureFailure);
    FinishNext(s, 7, s.(staticReport := b.staticReport));
  }

  lemma TurnVerify(s: State, b: Behaviour)
    requires Position(s, 8) && Holds(s, 8, b)
    ensures DoVerify(s, b).Some? && Obeys(s, 8, DoVerify(s, b).value, b)
  {
    hide Finish, Invariant, ValidBaseline, G.ValidReport, V.ValidResult;
    FailureEnds(s, 8);
    FailureRoutes(s, 8, InfrastructureFailure);
    FinishNext(s, 8, s.(verification := b.verified));
  }

  lemma TurnEvaluate(s: State, b: Behaviour)
    requires Position(s, 9) && Holds(s, 9, b)
    ensures DoEvaluate(s, b).Some? && Obeys(s, 9, DoEvaluate(s, b).value, b)
  {
    hide Finish, Invariant, ValidBaseline, G.ValidReport, V.ValidResult;
    FailureEnds(s, 9);
    FailureRoutes(s, 9, InfrastructureFailure);
    FinishNext(s, 9, s.(evaluation := b.evaluated));
  }

  lemma NodeObeys(s: State, k: nat, b: Behaviour)
    requires k < 10 && Position(s, k) && Holds(s, k, b) && UsageOk(b)
    ensures Execute(s, k, b).Some? && Obeys(s, k, Execute(s, k, b).value, b)
  {
    hide Position, Holds, Obeys, DoPrepare, DoBaseline, DoClassify, DoContext, DoPlan, DoPatch, DoPolicy, DoStatic,
        DoVerify, DoEvaluate;
    match k {
      case 0 => TurnPrepare(s, b);
      case 1 => TurnBaseline(s, b);
      case 2 => TurnClassify(s, b);
      case 3 => TurnContext(s, b);
      case 4 => TurnPlan(s, b);
      case 5 => TurnPatch(s, b);
      case 6 => TurnPolicy(s, b);
      case 7 => TurnStatic(s, b);
      case 8 => TurnVerify(s, b);
      case _ => TurnEvaluate(s, b);
    }
  }

  lemma {:induction false} OutcomeDecidedFrom(s: State, k: nat, b: Behaviour)
    requires k < 10 && Position(s, k) && Holds(s, k, b) && UsageOk(b)
    requires RunFrom(s, k, b).Some?
    ensures RunFrom(s, k, b).value.route == Some(RouteFor(OutcomeFrom(k, s.caseId, s.configuration, b)))
    decreases 10 - k
  {
    hide Position, Ended, GoesOn, Execute, DoRoute, Holds, TurnAt, RouteTerminal;
    NodeStep(s, k, b);
    NodeObeys(s, k, b);
    var t := Execute(s, k, b).value;
    if GoesOn(t, k) {
      GoesOnBeforeLast(t, k);
      OutcomeDecidedFrom(t, k + 1, b);
    } else {
      RouteStep(t, k + 1, b);
    }
  }

  /** The outcome of every run is decided by the first stage whose boundary stops it, and by nothing else. */
  lemma OutcomeDecided(caseId: string, startedAt: int, configuration: Option<Configuration>, b: Behaviour)
    requires UsageOk(b) && Run(caseId, startedAt, configuration, b).Some?
    ensures Run(caseId, startedAt, configuration, b).value.route == Some(RouteFor(OutcomeFrom(0, caseId, configuration, b)))
  {
    hide Position, RunFrom, OutcomeFrom;
    NewStateAtStart(caseId, startedAt, configuration);
    OutcomeDecidedFrom(NewState(caseId, startedAt, configuration), 0, b);
  }

  // ---------------------------------------------------------------- outcomes by name and number

  /** A finished run's exit code names its outcome, zero only for success, and only success has no diagnostic. */
  lemma ExitCodes(caseId: string, startedAt: int, configuration: Option<Configuration>, b: Behaviour)
    requires UsageOk(b) && Run(caseId, startedAt, configuration, b).Some?
    ensures Run(caseId, startedAt, configuration, b).value.route.Some?
    ensures RouteNames(Run(caseId, startedAt, configuration, b).value.route.value)
  {
    hide Run, OutcomeFrom;
    OutcomeDecided(caseId, startedAt, configuration, b);
  }

  predicate RouteNames(route: Route) {
    && (route.exitCode == 0 <==> route.outcome == Success)
    && (route.exitCode == 1 <==> route.outcome == CandidateFailure)
    && (route.exitCode == 3 <==> route.outcome == PolicyViolation)
    && (route.exitCode == 4 <==> route.outcome == StaticCheckFailure)
    && (route.exitCode == 5 <==> route.outcome == BaselineNotReproducible)
    && (route.exitCode == 6 <==> route.outcome == InfrastructureFailure)
    && (route.exitCode == 7 <==> route.outcome == MalformedModelOutput)
    && (route.diagnostic.None? <==> route.outcome == Success)
    && (route.diagnostic.Some? ==> route.diagnostic.value == route.outcome)
  }

  /** Nothing stops the run before this stage. */
  predicate Reaches(k: nat, caseId: string, configuration: Option<Configuration>, b: Behaviour)
    requires k <= 10
  {
    forall j :: 0 <= j < k ==> TurnAt(j, caseId, configuration, b) == Onward
  }

  lemma {:induction false} OutcomeOfStop(j: nat, k: nat, caseId: string, configuration: Option<Configuration>,
      b: Behaviour, outcome: TerminalOutcome)
    requires j <= k < 10 && Reaches(k, caseId, configuration, b) && TurnAt(k, caseId, configuration, b) == Stop(outcome)
    ensures OutcomeFrom(j, caseId, configuration, b) == outcome
    decreases k - j
  {
    hide TurnAt;
    if j < k {
      OutcomeOfStop(j + 1, k, caseId, configuration, b, outcome);
    }
  }

  /** What an outcome says of the code of a model error. */
  predicate NamesModelError(outcome: TerminalOutcome, code: ModelCode) {
    && (outcome == CandidateFailure <==> code == UnsuitableAutonomousRepair)
    && (outcome == MalformedModelOutput <==> code in {OversizedResponse, MalformedStructuredOutput, InvalidPatchEnvelope})
    && (outcome == InfrastructureFailure <==>
          code in {MissingConfiguration, InvalidConfiguration, UnsupportedPromptVersion, InvalidInputState, ProviderException})
  }

  /** A run that a model error stops first, in the planner or in the patch generator, ends with the outcome of its code:
      an unsuitable repair is the candidate's failure, malformed output is its own, and the rest is infrastructure. */
  lemma ModelErrorDecides(caseId: string, startedAt: int, configuration: Option<Configuration>, b: Behaviour)
    requires UsageOk(b) && Run(caseId, startedAt, configuration, b).Some?
    ensures Run(caseId, startedAt, configuration, b).value.route.Some?
    ensures var outcome := Run(caseId, startedAt, configuration, b).value.route.value.outcome;
            && (Reaches(4, caseId, configuration, b) && b.modelConfiguration.Some? && b.hasProvider
                && configuration == b.modelConfiguration && b.planned.ModelError? && b.planFailureClock.Some? && !b.planFailureUsage.ReaderRaises?
                ==> NamesModelError(outcome, b.planned.code))
            && (Reaches(5, caseId, configuration, b) && b.patched.ModelError? && !b.patchFailureUsage.ReaderRaises?
                ==> NamesModelError(outcome, b.patched.code))
  {
    hide Run, OutcomeFrom, Reaches, TurnAt, ModelFailure;
    OutcomeDecided(caseId, startedAt, configuration, b);
    PlanTurnStops(caseId, configuration, b);
    PatchTurnStops(caseId, configuration, b);
    if Reaches(4, caseId, configuration, b) && TurnAt(4, caseId, configuration, b).Stop? {
      OutcomeOfStop(0, 4, caseId, configuration, b, TurnAt(4, caseId, configuration, b).outcome);
    }
    if Reaches(5, caseId, configuration, b) && TurnAt(5, caseId, configuration, b).Stop? {
      OutcomeOfStop(0, 5, caseId, configuration, b, TurnAt(5, caseId, configuration, b).outcome);
    }
  }

  lemma PlanTurnStops(caseId: string, configuration: Option<Configuration>, b: Behaviour)
    ensures b.modelConfiguration.Some? && b.hasProvider && configuration == b.modelConfiguration && b.planned.ModelError?
            && b.planFailureClock.Some? && !b.planFailureUsage.ReaderRaises? ==>
              var turn := TurnAt(4, caseId, configuration, b); turn.Stop? && NamesModelError(turn.outcome, b.planned.code)
  {
  }

  lemma PatchTurnStops(caseId: string, configuration: Option<Configuration>, b: Behaviour)
    ensures b.patched.ModelError? && !b.patchFailureUsage.ReaderRaises? ==>
              var turn := TurnAt(5, caseId, configuration, b); turn.Stop? && NamesModelError(turn.outcome, b.patched.code)
  {
  }
}
