/**
 What the state of a run holds of the answers its boundaries gave, stage by stage
 (app/agent/graph.py:634-946).
 */
module RunEvidence {
  import opened Wrappers
  import opened RunGraph
  import G = StaticGate
  import V = Verification

  /** The baseline boundary gave a valid result of the prepared repository, and the clock answered. */
  predicate BaselineAnswered(b: Behaviour) {
    b.baseline.Some? && ValidBaseline(b.baseline.value) && b.baselineClock.Some? && b.prepared == Some(b.baseline.value.preparation)
  }

  predicate StaticAnswered(b: Behaviour) {
    b.staticReport.Some? && G.ValidReport(b.staticReport.value)
  }

  predicate VerificationAnswered(b: Behaviour) {
    b.verified.Some? && V.ValidResult(b.verified.value.stages, b.verified.value.verdict)
  }

  /** The evaluator gave the evaluation of this case, with the last usage known. */
  predicate EvaluationAnswered(caseId: string, b: Behaviour) {
    var usage := UsageAfterPatch(b);
    && b.verified.Some? && b.evaluated.Some?
    && b.evaluated.value.caseId == caseId
    && b.evaluated.value.usage == (if usage.None? then NO_USAGE else usage.value)
    && (b.evaluated.value.status == FunctionalPassed <==> b.verified.value.verdict == V.AllPassed)
    && (b.evaluated.value.status == FunctionalFailed <==> b.verified.value.verdict == V.CandidateFailed)
  }

  /** The evidence after the first `k` nodes. */
  predicate Carries(s: State, k: nat, b: Behaviour) {
    && s.baseline == (if k >= 2 && BaselineAnswered(b) then b.baseline else None)
    && s.analysis == (if k >= 3 && b.analysisClock.Some? then b.analysis else None)
    && s.policy == (if k >= 7 then b.policy else None)
    && s.staticReport == (if k >= 8 && StaticAnswered(b) then b.staticReport else None)
    && s.verification == (if k >= 9 && VerificationAnswered(b) then b.verified else None)
    && s.evaluation == (if k >= 10 && EvaluationAnswered(s.caseId, b) then b.evaluated else None)
  }

  /** Who the run is, which no node changes. */
  predicate SameRun(s: State, t: State) {
    s.caseId == t.caseId && s.startedAt == t.startedAt && s.configuration == t.configuration
  }

  /** All evidence but that of one node is kept. */
  predicate KeptBut(s: State, t: State, k: nat) {
    && SameRun(s, t)
    && (k != 1 ==> t.baseline == s.baseline) && (k != 2 ==> t.analysis == s.analysis)
    && (k != 6 ==> t.policy == s.policy) && (k != 7 ==> t.staticReport == s.staticReport)
    && (k != 8 ==> t.verification == s.verification) && (k != 9 ==> t.evaluation == s.evaluation)
  }

  lemma NodeKeeps(s: State, k: nat, b: Behaviour)
    requires k < 10 && Execute(s, k, b).Some?
    ensures KeptBut(s, Execute(s, k, b).value, k)
  {
    hide KeptBut;
    if k < 4 {
      EarlyKeeps(s, k, b);
    } else if k < 6 {
      ModelKeeps(s, k, b);
    } else {
      LateKeeps(s, k, b);
    }
  }

  lemma EarlyKeeps(s: State, k: nat, b: Behaviour)
    requires k < 4 && Execute(s, k, b).Some?
    ensures KeptBut(s, Execute(s, k, b).value, k)
  {
    hide Invariant, DoPlan, DoPatch, DoPolicy, DoStatic, DoVerify, DoEvaluate;
  }

  lemma ModelKeeps(s: State, k: nat, b: Behaviour)
    requires 4 <= k < 6 && Execute(s, k, b).Some?
    ensures KeptBut(s, Execute(s, k, b).value, k)
  {
    hide Invariant, DoPrepare, DoBaseline, DoClassify, DoContext, DoPolicy, DoStatic, DoVerify, DoEvaluate;
  }

  lemma LateKeeps(s: State, k: nat, b: Behaviour)
    requires 6 <= k < 10 && Execute(s, k, b).Some?
    ensures KeptBut(s, Execute(s, k, b).value, k)
  {
    hide Invariant, DoPrepare, DoBaseline, DoClassify, DoContext, DoPlan, DoPatch;
  }

  lemma BaselineRecorded(s: State, b: Behaviour)
    requires Position(s, 1) && Holds(s, 1, b) && DoBaseline(s, b).Some?
    ensures DoBaseline(s, b).value.baseline == if BaselineAnswered(b) then b.baseline else None
  {
    hide Finish, Invariant, ValidBaseline;
    FailureKeeps(s, 1);
    FinishNext(s, 1, s.(baseline := b.baseline, legacy := s.legacy.(baseline := b.baseline)));
  }

  lemma FailureKeeps(s: State, k: nat)
    requires k < 10 && Position(s, k) && k != 4
    ensures var t := Failure(s, NODES[k], InfrastructureFailure);
            && t.Some? && KeptBut(s, t.value, 10)
            && t.value.baseline == s.baseline && t.value.analysis == s.analysis && t.value.policy == s.policy
            && t.value.staticReport == s.staticReport && t.value.verification == s.verification && t.value.evaluation == s.evaluation
  {
    hide Invariant;
    FailureEnds(s, k);
  }

  lemma AnalysisRecorded(s: State, b: Behaviour)
    requires Position(s, 2) && Holds(s, 2, b) && DoClassify(s, b).Some?
    ensures DoClassify(s, b).value.analysis == if b.analysisClock.Some? then b.analysis else None
  {
    hide Finish, Invariant, ValidBaseline;
    FailureKeeps(s, 2);
    FinishNext(s, 2, s.(analysis := b.analysis, legacy := s.legacy.(analysis := b.analysis)));
  }

  lemma PolicyRecorded(s: State, b: Behaviour)
    requires Position(s, 6) && Holds(s, 6, b) && DoPolicy(s, b).Some?
    ensures DoPolicy(s, b).value.policy == b.policy
  {
    hide Finish, Invariant, ValidBaseline;
    FailureKeeps(s, 6);
    FinishNext(s, 6, s.(policy := b.policy));
  }

  lemma StaticRecorded(s: State, b: Behaviour)
    requires Position(s, 7) && Holds(s, 7, b) && DoStatic(s, b).Some?
    ensures DoStatic(s, b).value.staticReport == if StaticAnswered(b) then b.staticReport else None
  {
    hide Finish, Invariant, ValidBaseline, G.ValidReport;
    FailureKeeps(s, 7);
    FinishNext(s, 7, s.(staticReport := b.staticReport));
  }

  lemma VerificationRecorded(s: State, b: Behaviour)
    requires Position(s, 8) && Holds(s, 8, b) && DoVerify(s, b).Some?
    ensures DoVerify(s, b).value.verification == if VerificationAnswered(b) then b.verified else None
  {
    hide Finish, Invariant, ValidBaseline, G.ValidReport, V.ValidResult;
    FailureKeeps(s, 8);
    FinishNext(s, 8, s.(verification := b.verified));
  }

  lemma EvaluationRecorded(s: State, b: Behaviour)
    requires Position(s, 9) && Holds(s, 9, b) && DoEvaluate(s, b).Some?
    ensures DoEvaluate(s, b).value.evaluation == if EvaluationAnswered(s.caseId, b) then b.evaluated else None
  {
    hide Finish, Invariant, ValidBaseline, G.ValidReport, V.ValidResult;
    FailureKeeps(s, 9);
    FinishNext(s, 9, s.(evaluation := b.evaluated));
  }

  lemma CarriesStep(s: State, k: nat, b: Behaviour)
    requires k < 10 && Position(s, k) && Holds(s, k, b) && Carries(s, k, b) && Execute(s, k, b).Some?
    ensures Carries(Execute(s, k, b).value, k + 1, b) && SameRun(s, Execute(s, k, b).value)
  {
    hide Position, Holds, BaselineAnswered, StaticAnswered, VerificationAnswered, EvaluationAnswered,
        DoPrepare, DoBaseline, DoClassify, DoContext, DoPlan, DoPatch, DoPolicy, DoStatic, DoVerify, DoEvaluate;
    NodeKeeps(s, k, b);
    match k {
      case 1 => BaselineRecorded(s, b);
      case 2 => AnalysisRecorded(s, b);
      case 6 => PolicyRecorded(s, b);
      case 7 => StaticRecorded(s, b);
      case 8 => VerificationRecorded(s, b);
      case 9 => EvaluationRecorded(s, b);
      case _ =>
    }
  }

  /** What the finished run says of itself: who it is, how many attempts it made, when it ended, and the
      evidence of its first `n` nodes. */
  ghost predicate Told(t: State, n: nat, caseId: string, startedAt: int, configuration: Option<Configuration>,
      b: Behaviour) {
    && t.caseId == caseId && t.startedAt == startedAt && t.configuration == configuration
    && t.completedAt == b.routeClock && t.attempt == (if n >= 5 then 1 else 0)
    && Carries(t, n, b)
  }

  /** The run executes the nodes up to the first that stops it, and no other. */
  predicate StopsAt(n: nat, caseId: string, configuration: Option<Configuration>, b: Behaviour) {
    1 <= n <= 10 && Reaches(n - 1, caseId, configuration, b) && (n < 10 ==> TurnAt(n - 1, caseId, configuration, b).Stop?)
  }

  lemma {:induction false} RunTells(s: State, k: nat, b: Behaviour) returns (n: nat)
    requires k < 10 && Position(s, k) && Holds(s, k, b) && Carries(s, k, b) && UsageOk(b)
    requires Reaches(k, s.caseId, s.configuration, b) && RunFrom(s, k, b).Some?
    ensures StopsAt(n, s.caseId, s.configuration, b) && Terminal(RunFrom(s, k, b).value, n)
    ensures Told(RunFrom(s, k, b).value, n, s.caseId, s.startedAt, s.configuration, b)
    decreases 10 - k
  {
    hide Position, Ended, GoesOn, Execute, DoRoute, Holds, TurnAt, RouteTerminal, Carries, Terminal;
    NodeStep(s, k, b);
    NodeObeys(s, k, b);
    CarriesStep(s, k, b);
    var t := Execute(s, k, b).value;
    if GoesOn(t, k) {
      GoesOnBeforeLast(t, k);
      n := RunTells(t, k + 1, b);
    } else {
      n := k + 1;
      RouteStep(t, n, b);
      RoutedTells(t, n, b);
    }
  }

  lemma RoutedTells(s: State, n: nat, b: Behaviour)
    requires n <= 10 && Ended(s, n) && Carries(s, n, b) && b.routeClock.Some?
    ensures Told(Routed(s, RouteTerminal(s), b.routeClock.value), n, s.caseId, s.startedAt, s.configuration, b)
  {
    hide RouteTerminal, After, BaselineAnswered, StaticAnswered, VerificationAnswered, EvaluationAnswered;
  }

  /** Every finished run holds exactly what its boundaries answered at the stages it completed. */
  lemma EveryRunTells(caseId: string, startedAt: int, configuration: Option<Configuration>,
      b: Behaviour) returns (n: nat)
    requires UsageOk(b) && Run(caseId, startedAt, configuration, b).Some?
    ensures StopsAt(n, caseId, configuration, b) && Terminal(Run(caseId, startedAt, configuration, b).value, n)
    ensures Told(Run(caseId, startedAt, configuration, b).value, n, caseId, startedAt, configuration, b)
  {
    hide Position, RunFrom, Told, Terminal, StopsAt;
    NewStateAtStart(caseId, startedAt, configuration);
    n := RunTells(NewState(caseId, startedAt, configuration), 0, b);
  }
}
