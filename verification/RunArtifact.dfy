/**
 The record a finished run leaves, with a validator of its own, and the projection of the
 run's state to it (app/artifacts.py:50-436).
 */
module RunArtifact {
  import opened Wrappers
  import opened RunGraph
  import opened RunEvidence
  import G = StaticGate
  import V = Verification

  datatype BaselineArtifact = BaselineArtifact(
    outcome: BaselineOutcome, code: Option<BaselineCode>, completion: Option<V.Completion>, exitCode: Option<int>,
    stdoutTruncated: Option<bool>, stderrTruncated: Option<bool>, duration: Option<real>)

  /** `BaselineArtifact.validate_outcome`. */
  predicate ValidBaselineArtifact(a: BaselineArtifact) {
    && (a.duration.Some? ==> a.duration.value >= 0.0)
    && match a.outcome
       case ReproducedFailure =>
         && a.code.None? && a.completion == Some(V.Normal) && a.exitCode !in {None, Some(0)}
         && a.stdoutTruncated.Some? && a.stderrTruncated.Some? && a.duration.Some?
       case NotReproducible =>
         && a.code == Some(BaselineNotReproducibleCode) && a.completion == Some(V.Normal) && a.exitCode == Some(0)
         && a.stdoutTruncated.Some? && a.stderrTruncated.Some? && a.duration.Some?
       case InfrastructureDiagnostic =>
         && a.code.Some? && a.code.value != BaselineNotReproducibleCode
         && match a.code.value
            case SandboxTimedOut => a.completion == Some(V.TimedOut) && a.exitCode.None?
            case SandboxMemoryLimit => a.completion == Some(V.MemoryLimit)
            case _ =>
              && a.completion.None? && a.exitCode.None? && a.stdoutTruncated.None? && a.stderrTruncated.None?
              && a.duration.None?
  }

  datatype StaticArtifact = StaticArtifact(outcome: G.Verdict, checks: seq<G.CheckResult>, diagnostic: Option<G.Code>)

  function Statuses(checks: seq<G.CheckResult>): set<G.Status> {
    set result | result in checks :: result.status
  }

  /** `StaticArtifact.validate_static`. */
  predicate ValidStaticArtifact(a: StaticArtifact) {
    && |a.checks| == |G.CHECKS|
    && (forall i :: 0 <= i < |a.checks| ==> a.checks[i].check == G.CHECKS[i])
    && (forall i :: 0 <= i < |a.checks| ==> (a.checks[i].code.Some? <==> a.checks[i].status in {G.NotRun, G.Infrastructure}))
    && G.NotApplicable !in Statuses(a.checks[..2])
    && (G.NotApplicable in Statuses(a.checks[2..]) ==> Statuses(a.checks[2..]) == {G.NotApplicable})
    && match a.outcome
       case Approved =>
         && a.diagnostic.None?
         && Statuses(a.checks) <= {G.Passed, G.NotApplicable}
         && Statuses(a.checks[2..]) in {{G.Passed}, {G.NotApplicable}}
       case CandidateFailed =>
         a.diagnostic.None? && G.Failed in Statuses(a.checks) && G.Infrastructure !in Statuses(a.checks)
       case InfrastructureDiagnostic =>
         a.diagnostic.Some? && G.Infrastructure in Statuses(a.checks)
  }

  datatype Artifact = Artifact(
    caseId: string, outcome: TerminalOutcome, exitCode: int, startedAt: int, completedAt: int, attempt: nat,
    provider: Option<string>, model: Option<string>, promptVersion: Option<string>,
    baseline: Option<BaselineArtifact>, category: Option<int>, policy: Option<bool>, staticReport: Option<StaticArtifact>,
    verification: Option<Verified>, evaluation: Option<Evaluation>, diagnostic: Option<TerminalOutcome>)

  /** `RunArtifact._validate_terminal_shape`. */
  predicate TerminalShape(a: Artifact) {
    var reproduced := a.baseline.Some? && a.baseline.value.outcome == ReproducedFailure;
    var attempted := a.attempt == 1 && reproduced && a.category.Some? && a.provider.Some?;
    var approved := a.policy == Some(true);
    var staticPassed := a.staticReport.Some? && a.staticReport.value.outcome == G.Approved;
    var verdict := if a.verification.None? then None else Some(a.verification.value.verdict);
    var status := if a.evaluation.None? then None else Some(a.evaluation.value.status);
    match a.outcome
    case Success =>
      attempted && approved && staticPassed && verdict == Some(V.AllPassed) && status == Some(FunctionalPassed)
    case CandidateFailure =>
      && attempted
      && (|| (a.policy.None? && a.staticReport.None? && a.verification.None?)
          || (approved && staticPassed && verdict == Some(V.CandidateFailed) && status == Some(FunctionalFailed)))
    case PolicyViolation =>
      attempted && a.policy == Some(false) && a.staticReport.None? && a.verification.None? && a.evaluation.None?
    case StaticCheckFailure =>
      && attempted && approved && a.staticReport.Some? && a.staticReport.value.outcome == G.CandidateFailed
      && a.verification.None? && a.evaluation.None?
    case BaselineNotReproducible =>
      a.attempt == 0 && a.baseline.Some? && a.baseline.value.outcome == NotReproducible
    case MalformedModelOutput =>
      attempted && a.policy.None? && a.staticReport.None? && a.verification.None? && a.evaluation.None?
    case InfrastructureFailure => true
  }

  predicate NoLaterEvidence(a: Artifact) {
    a.category.None? && a.policy.None? && a.staticReport.None? && a.verification.None? && a.evaluation.None?
  }

  /** `RunArtifact.validate_artifact`. */
  predicate ValidArtifact(a: Artifact) {
    && a.attempt <= 1
    && (a.baseline.Some? ==> ValidBaselineArtifact(a.baseline.value))
    && (a.staticReport.Some? ==> ValidStaticArtifact(a.staticReport.value))
    && (a.verification.Some? ==> V.ValidResult(a.verification.value.stages, a.verification.value.verdict))
    && a.exitCode == ExitCode(a.outcome)
    && a.completedAt >= a.startedAt
    && (a.provider.Some? <==> a.model.Some?) && (a.model.Some? <==> a.promptVersion.Some?)
    && a.diagnostic == (if a.outcome == Success then None else Some(a.outcome))
    && (a.verification.None? ==> a.evaluation.None?)
    && (a.policy.None? ==> a.staticReport.None?)
    && (a.baseline.None? ==> NoLaterEvidence(a))
    && (a.baseline.Some? && a.baseline.value.outcome != ReproducedFailure ==> NoLaterEvidence(a))
    && (a.policy == Some(false) ==> a.staticReport.None? && a.verification.None? && a.evaluation.None?)
    && (a.staticReport.Some? && a.staticReport.value.outcome != G.Approved ==> a.verification.None? && a.evaluation.None?)
    && (a.verification.Some? && a.evaluation.Some? ==>
          a.evaluation.value.caseId == a.caseId && a.evaluation.value.status == StatusOf(a.verification.value.verdict))
    && TerminalShape(a)
  }

  // ---------------------------------------------------------------- projection

  /** `_baseline_projection`. */
  function ProjectBaseline(b: Baseline): BaselineArtifact {
    match b.evidence
    case None => BaselineArtifact(b.outcome, b.code, None, None, None, None, None)
    case Some(e) =>
      BaselineArtifact(b.outcome, b.code, Some(e.completion), e.exitCode, Some(e.stdoutTruncated), Some(e.stderrTruncated), Some(e.duration))
  }

  function ProjectStatic(report: G.Report): StaticArtifact {
    StaticArtifact(report.outcome, report.checks, report.diagnostic)
  }

  function Projection(s: State): Artifact
    requires s.route.Some? && s.completedAt.Some?
  {
    var c := s.configuration;
    Artifact(
      s.caseId, s.route.value.outcome, s.route.value.exitCode, s.startedAt, s.completedAt.value, s.attempt,
      if c.None? then None else Some(c.value.provider),
      if c.None? then None else Some(c.value.model),
      if c.None? then None else Some(c.value.promptVersion),
      if s.baseline.None? then None else Some(ProjectBaseline(s.baseline.value)),
      s.analysis,
      s.policy,
      if s.staticReport.None? then None else Some(ProjectStatic(s.staticReport.value)),
      s.verification, s.evaluation, s.route.value.diagnostic)
  }

  /** `project_artifact`: none when a validator raises. */
  function Project(s: State): Option<Artifact> {
    if !Invariant(s) || s.route.None? || s.completedAt.None? then None
    else if ValidArtifact(Projection(s)) then Some(Projection(s))
    else None
  }

  // ---------------------------------------------------------------- what a record says

  /** Provider, model and prompt version, each in its own field. */
  predicate RecordsConfiguration(a: Artifact, configuration: Option<Configuration>) {
    match configuration
    case None => a.provider.None? && a.model.None? && a.promptVersion.None?
    case Some(c) => a.provider == Some(c.provider) && a.model == Some(c.model) && a.promptVersion == Some(c.promptVersion)
  }

  /** The baseline's outcome and code, and of its evidence the completion, exit code, truncation and duration. */
  predicate RecordsBaseline(a: Option<BaselineArtifact>, baseline: Option<Baseline>) {
    && (a.Some? <==> baseline.Some?)
    && (a.Some? ==>
         && a.value.outcome == baseline.value.outcome && a.value.code == baseline.value.code
         && match baseline.value.evidence
            case None =>
              && a.value.completion.None? && a.value.exitCode.None? && a.value.stdoutTruncated.None?
              && a.value.stderrTruncated.None? && a.value.duration.None?
            case Some(e) =>
              && a.value.completion == Some(e.completion) && a.value.exitCode == e.exitCode
              && a.value.stdoutTruncated == Some(e.stdoutTruncated) && a.value.stderrTruncated == Some(e.stderrTruncated)
              && a.value.duration == Some(e.duration))
  }

  predicate RecordsStatic(a: Option<StaticArtifact>, report: Option<G.Report>) {
    && (a.Some? <==> report.Some?)
    && (a.Some? ==>
         a.value.outcome == report.value.outcome && a.value.checks == report.value.checks && a.value.diagnostic == report.value.diagnostic)
  }

  /** The record is of this run and its evidence. */
  predicate RecordsEvidence(a: Artifact, s: State) {
    && a.caseId == s.caseId && a.startedAt == s.startedAt && a.attempt == s.attempt
    && RecordsConfiguration(a, s.configuration)
    && RecordsBaseline(a.baseline, s.baseline)
    && a.category == s.analysis && a.policy == s.policy
    && RecordsStatic(a.staticReport, s.staticReport)
    && a.verification == s.verification && a.evaluation == s.evaluation
  }

  /** The record is of a run that an infrastructure failure ended at this time. */
  predicate RecordsFailure(a: Artifact, completedAt: int) {
    && a.outcome == InfrastructureFailure && a.exitCode == 6 && a.diagnostic == Some(InfrastructureFailure)
    && a.completedAt == completedAt
  }

  lemma ProjectionRecords(s: State)
    requires s.route.Some? && s.completedAt.Some?
    ensures var a := Projection(s);
            && RecordsEvidence(a, s) && s.completedAt == Some(a.completedAt)
            && s.route == Some(Route(a.outcome, a.exitCode, a.diagnostic))
  {
  }

  // ---------------------------------------------------------------- the validators agree

  /** A baseline is valid for the run only if its record is valid, and a record with a message comes from a valid baseline. */
  lemma BaselineAgrees(b: Baseline)
    ensures ValidBaseline(b) <==> ValidBaselineArtifact(ProjectBaseline(b)) && (b.hasMessage <==> b.outcome != ReproducedFailure)
  {
  }

  lemma StatusesOfTail(checks: seq<G.CheckResult>, from: nat, status: G.Status)
    requires from <= |checks|
    ensures status in Statuses(checks[from..]) <==> exists i :: from <= i < |checks| && checks[i].status == status
    ensures forall i :: from <= i < |checks| ==> checks[i].status in Statuses(checks[from..])
  {
    var tail := checks[from..];
    forall i | from <= i < |checks| ensures checks[i].status in Statuses(tail) {
      assert tail[i - from] == checks[i];
    }
    if status in Statuses(tail) {
      var result :| result in tail && result.status == status;
      var i :| 0 <= i < |tail| && tail[i] == result;
      assert checks[from + i] == result;
    }
  }

  lemma StatusesOfHead(checks: seq<G.CheckResult>)
    requires |checks| == 7
    ensures G.NotApplicable !in Statuses(checks[..2]) <==> forall i :: 0 <= i < 2 ==> checks[i].status != G.NotApplicable
  {
    assert checks[..2] == [checks[0], checks[1]];
  }

  /** One status is all there is among the last checks. */
  lemma OneStatus(checks: seq<G.CheckResult>, status: G.Status)
    requires |checks| == 7
    ensures Statuses(checks[2..]) == {status} <==> forall i :: 2 <= i < 7 ==> checks[i].status == status
  {
    StatusesOfTail(checks, 2, status);
    assert checks[2].status in Statuses(checks[2..]);
    if forall i :: 2 <= i < 7 ==> checks[i].status == status {
      forall other | other in Statuses(checks[2..]) ensures other == status {
        StatusesOfTail(checks, 2, other);
      }
    }
  }

  lemma StaticOrderAgrees(checks: seq<G.CheckResult>)
    requires |checks| == 7
    ensures (G.NotApplicable in Statuses(checks[2..]) ==> Statuses(checks[2..]) == {G.NotApplicable}) <==>
              ((exists i :: 2 <= i < |checks| && checks[i].status == G.NotApplicable)
               ==> forall i :: 2 <= i < |checks| ==> checks[i].status == G.NotApplicable)
  {
    hide Statuses;
    StatusesOfTail(checks, 2, G.NotApplicable);
    OneStatus(checks, G.NotApplicable);
  }

  lemma WholeStatuses(checks: seq<G.CheckResult>)
    ensures forall status :: status in Statuses(checks) <==> G.AnyStatus(checks, status)
  {
    assert checks[0..] == checks;
    forall status ensures status in Statuses(checks) <==> G.AnyStatus(checks, status) {
      StatusesOfTail(checks, 0, status);
    }
  }

  /** With shared applicability, passing everywhere is passing or not applicable throughout the language checks. */
  lemma PassingAgrees(checks: seq<G.CheckResult>)
    requires |checks| == 7
    requires G.NotApplicable in Statuses(checks[2..]) ==> Statuses(checks[2..]) == {G.NotApplicable}
    ensures (Statuses(checks) <= {G.Passed, G.NotApplicable} && Statuses(checks[2..]) in {{G.Passed}, {G.NotApplicable}}) <==>
            forall i :: 0 <= i < |checks| ==> checks[i].status in {G.Passed, G.NotApplicable}
  {
    hide Statuses;
    WholeStatuses(checks);
    OneStatus(checks, G.Passed);
    StatusesOfTail(checks, 2, G.NotApplicable);
    if forall i :: 0 <= i < |checks| ==> checks[i].status in {G.Passed, G.NotApplicable} {
      forall status | status in Statuses(checks) ensures status in {G.Passed, G.NotApplicable} {
        assert G.AnyStatus(checks, status);
      }
    }
    if Statuses(checks) <= {G.Passed, G.NotApplicable} {
      forall i | 0 <= i < |checks| ensures checks[i].status in {G.Passed, G.NotApplicable} {
        assert G.AnyStatus(checks, checks[i].status);
      }
    }
  }

  /** A static report is valid exactly when its record is and it has a candidate just when it approves. */
  lemma StaticAgrees(report: G.Report)
    ensures G.ValidReport(report) <==>
              ValidStaticArtifact(ProjectStatic(report)) && (report.candidate.Some? <==> report.outcome == G.Approved)
  {
    hide Statuses, G.AnyStatus;
    var checks := report.checks;
    if |checks| == 7 {
      StatusesOfHead(checks);
      StaticOrderAgrees(checks);
      WholeStatuses(checks);
      if G.NotApplicable in Statuses(checks[2..]) ==> Statuses(checks[2..]) == {G.NotApplicable} {
        PassingAgrees(checks);
      }
    }
  }

  /** A record its validator accepts names the outcome that routing gives its evidence, unless it names an infrastructure
      failure, or a failure of the model's output before any candidate. */
  lemma AcceptedRecordRoutes(a: Artifact, s: State)
    requires ValidArtifact(a) && RecordsEvidence(a, s) && s.failureOverride.None?
    ensures || a.outcome == RouteTerminal(s) || a.outcome == InfrastructureFailure
            || (a.outcome in EARLY_OUTCOMES && s.policy.None? && s.staticReport.None? && s.verification.None?)
    ensures a.outcome == Success ==>
              && Reproduced(s) && s.attempt == 1 && s.analysis.Some? && s.configuration.Some? && s.policy == Some(true)
              && StaticApproved(s) && s.verification.Some? && s.verification.value.verdict == V.AllPassed
              && s.evaluation.Some? && s.evaluation.value.status == FunctionalPassed
    ensures RouteNames(Route(a.outcome, a.exitCode, a.diagnostic)) && a.startedAt <= a.completedAt
  {
    hide ValidBaselineArtifact, ValidStaticArtifact, V.ValidResult;
  }

  // ---------------------------------------------------------------- every finished run has its record

  /** The evidence of an ended run matches the outcome it is routed to. */
  lemma EndedShape(s: State, k: nat, completedAt: int)
    requires k <= 10 && Ended(s, k)
    ensures TerminalShape(Projection(Routed(s, RouteTerminal(s), completedAt)))
  {
    hide ValidBaseline, G.ValidReport, V.ValidResult, IdentitiesOk, ProjectBaseline;
    BaselineOutcomeKept(s);
  }

  lemma BaselineOutcomeKept(s: State)
    ensures s.baseline.Some? ==> ProjectBaseline(s.baseline.value).outcome == s.baseline.value.outcome
  {
  }

  /** What the record's validator asks of evidence, other than its terminal shape, holds at every place of a run. */
  predicate EvidenceShape(s: State) {
    && (s.verification.None? ==> s.evaluation.None?)
    && (s.policy.None? ==> s.staticReport.None?)
    && (!Reproduced(s) ==> s.analysis.None? && s.policy.None? && s.staticReport.None? && s.verification.None? && s.evaluation.None?)
    && (s.policy == Some(false) ==> s.staticReport.None? && s.verification.None? && s.evaluation.None?)
    && (s.staticReport.Some? && s.staticReport.value.outcome != G.Approved ==> s.verification.None? && s.evaluation.None?)
    && (s.evaluation.Some? ==> s.evaluation.value.caseId == s.caseId && Evaluated(s))
  }

  lemma EndedEvidence(s: State, k: nat)
    requires k <= 10 && Ended(s, k)
    ensures EvidenceShape(s)
  {
    hide ValidBaseline, G.ValidReport, V.ValidResult;
  }

  lemma PositionEvidence(s: State, k: nat)
    requires k < 10 && Position(s, k)
    ensures EvidenceShape(s)
  {
    hide ValidBaseline, G.ValidReport, V.ValidResult;
  }

  /** Evidence of the right shape, valid values and the right terminal shape make a valid record. */
  lemma RecordIsValid(s: State, t: State)
    requires EvidenceShape(s) && ValuesOk(s)
    requires t == s.(route := t.route, completedAt := t.completedAt, nodes := t.nodes)
    requires t.route.Some? && t.completedAt.Some? && t.route.value == RouteFor(t.route.value.outcome)
    requires t.completedAt.value >= t.startedAt && TerminalShape(Projection(t))
    ensures ValidArtifact(Projection(t))
  {
    hide ValidBaseline, G.ValidReport, V.ValidResult, ProjectBaseline, ProjectStatic, ValidStaticArtifact,
        ValidBaselineArtifact, IdentitiesOk, OverrideOk, TerminalShape;
    BaselineOutcomeKept(s);
    StaticOutcomeKept(s);
    if s.baseline.Some? {
      BaselineAgrees(s.baseline.value);
    }
    if s.staticReport.Some? {
      StaticAgrees(s.staticReport.value);
    }
  }

  lemma StaticOutcomeKept(s: State)
    ensures s.staticReport.Some? ==> ProjectStatic(s.staticReport.value).outcome == s.staticReport.value.outcome
  {
  }

  /** Every finished run projects to a record its own validator accepts, of its evidence, its end and its route. */
  lemma FinishedProjects(t: State, k: nat)
    requires Terminal(t, k)
    ensures Project(t).Some?
    ensures var a := Project(t).value;
            && RecordsEvidence(a, t) && t.completedAt == Some(a.completedAt)
            && t.route == Some(Route(a.outcome, a.exitCode, a.diagnostic))
  {
    hide Invariant, Ended, EvidenceShape, ValuesOk, TerminalShape, ValidArtifact, RouteTerminal, RecordsEvidence;
    ProjectionRecords(t);
    var s :| Ended(s, k) && t == Routed(s, RouteTerminal(s), if t.completedAt.Some? then t.completedAt.value else 0);
    EndedShape(s, k, t.completedAt.value);
    EndedEvidence(s, k);
    PlaceIsAfter(s, k);
    IsAfter(s, k);
    TimesOfInvariant(t);
    RecordIsValid(s, t);
  }

  lemma TimesOfInvariant(t: State)
    requires Invariant(t) && t.completedAt.Some?
    ensures t.completedAt.value >= t.startedAt
  {
    hide ValidBaseline, G.ValidReport, V.ValidResult, NodesOk, EvidenceOk, IdentitiesOk, OverrideOk, RouteOk;
  }

  lemma InfrastructureShape(s: State)
    requires s.route == Some(RouteFor(InfrastructureFailure)) && s.completedAt.Some?
    ensures TerminalShape(Projection(s))
  {
    hide ProjectBaseline, ProjectStatic;
  }

  lemma OverrideKeepsEvidence(s: State, o: State)
    requires o == s.(failureOverride := o.failureOverride)
    ensures EvidenceShape(s) <==> EvidenceShape(o)
  {
  }

  /** So does every run ended early, wherever it was. */
  lemma TerminalizedProjects(s: State, k: nat, completedAt: int)
    requires k <= 10 && ((k < 10 && Position(s, k)) || Ended(s, k))
    requires Terminalize(s, completedAt).Some?
    ensures Project(Terminalize(s, completedAt).value).Some?
    ensures var a := Project(Terminalize(s, completedAt).value).value; RecordsEvidence(a, s) && RecordsFailure(a, completedAt)
  {
    hide Invariant, Position, Ended, EvidenceShape, ValuesOk, TerminalShape, ValidArtifact, Projection;
    var t := Terminalize(s, completedAt).value;
    ProjectionRecords(t);
    var o := s.(failureOverride := Some(InfrastructureFailure));
    OverriddenRoutes(s, k);
    if k < 10 && Position(s, k) {
      PositionEvidence(s, k);
    } else {
      EndedEvidence(s, k);
    }
    OverrideKeepsEvidence(s, o);
    InfrastructureShape(t);
    TimesOfInvariant(t);
    RecordIsValid(o, t);
  }

  /** And every finished run whose outcome is replaced after a failed cleanup. */
  lemma ReplacedProjects(t: State, k: nat, completedAt: int)
    requires Terminal(t, k) && ReplaceWithInfrastructureFailure(t, completedAt).Some?
    ensures Project(ReplaceWithInfrastructureFailure(t, completedAt).value).Some?
    ensures var a := Project(ReplaceWithInfrastructureFailure(t, completedAt).value).value;
            RecordsEvidence(a, t) && RecordsFailure(a, completedAt)
  {
    hide Invariant, Ended, EvidenceShape, ValuesOk, TerminalShape, ValidArtifact, RouteTerminal, Projection;
    ProjectionRecords(ReplaceWithInfrastructureFailure(t, completedAt).value);
    var s :| Ended(s, k) && t == Routed(s, RouteTerminal(s), if t.completedAt.Some? then t.completedAt.value else 0);
    var r := ReplaceWithInfrastructureFailure(t, completedAt).value;
    var o := s.(failureOverride := Some(InfrastructureFailure));
    OverriddenRoutes(s, k);
    EndedEvidence(s, k);
    OverrideKeepsEvidence(s, o);
    InfrastructureShape(r);
    TimesOfInvariant(r);
    RecordIsValid(o, r);
  }

  /** The record of a run is of what it was given and of what its boundaries answered at the stages it completed,
      and its outcome is that of the first stage that stopped it. */
  predicate RecordsRun(a: Artifact, n: nat, caseId: string, startedAt: int, configuration: Option<Configuration>,
      b: Behaviour)
  {
    && a.caseId == caseId && a.startedAt == startedAt && Some(a.completedAt) == b.routeClock
    && RecordsConfiguration(a, configuration)
    && a.attempt == (if n >= 5 then 1 else 0)
    && RecordsBaseline(a.baseline, if n >= 2 && BaselineAnswered(b) then b.baseline else None)
    && a.category == (if n >= 3 && b.analysisClock.Some? then b.analysis else None)
    && a.policy == (if n >= 7 then b.policy else None)
    && RecordsStatic(a.staticReport, if n >= 8 && StaticAnswered(b) then b.staticReport else None)
    && a.verification == (if n >= 9 && VerificationAnswered(b) then b.verified else None)
    && a.evaluation == (if n >= 10 && EvaluationAnswered(caseId, b) then b.evaluated else None)
    && a.outcome == OutcomeFrom(0, caseId, configuration, b)
    && RouteNames(Route(a.outcome, a.exitCode, a.diagnostic))
  }

  lemma ToldIsRecorded(a: Artifact, t: State, n: nat, caseId: string, startedAt: int,
      configuration: Option<Configuration>, b: Behaviour)
    requires Told(t, n, caseId, startedAt, configuration, b)
    requires RecordsEvidence(a, t) && t.completedAt == Some(a.completedAt)
    requires a.outcome == OutcomeFrom(0, caseId, configuration, b) && RouteNames(Route(a.outcome, a.exitCode, a.diagnostic))
    ensures RecordsRun(a, n, caseId, startedAt, configuration, b)
  {
    hide RecordsBaseline, RecordsStatic, BaselineAnswered, StaticAnswered, VerificationAnswered, EvaluationAnswered,
        OutcomeFrom, RouteNames;
  }

  /** From a new state to the record: a run whose last clock works ends with an accepted record of what its boundaries
      answered up to the stage that stopped it, whatever they did. */
  lemma EveryRunHasItsRecord(caseId: string, startedAt: int, configuration: Option<Configuration>,
      b: Behaviour) returns (n: nat)
    requires UsageOk(b) && b.routeClock.Some? && b.routeClock.value >= startedAt
    ensures var r := Run(caseId, startedAt, configuration, b); r.Some? && Project(r.value).Some?
    ensures StopsAt(n, caseId, configuration, b)
    ensures RecordsRun(Project(Run(caseId, startedAt, configuration, b).value).value, n, caseId, startedAt, configuration, b)
  {
    hide Run, Project, Terminal, RecordsRun, RecordsEvidence, StopsAt, OutcomeFrom, Told, RouteNames;
    EveryRunEnds(caseId, startedAt, configuration, b);
    var t := Run(caseId, startedAt, configuration, b).value;
    n := EveryRunTells(caseId, startedAt, configuration, b);
    FinishedProjects(t, n);
    OutcomeDecided(caseId, startedAt, configuration, b);
    ExitCodes(caseId, startedAt, configuration, b);
    ToldIsRecorded(Project(t).value, t, n, caseId, startedAt, configuration, b);
  }
}
