/**
 The verification protocol: the targeted tests, the visible suite, then the hidden suite in
 a bundle made for it, each on a candidate that must not change
 (app/agent/verification.py:126-247, 737-964, 1010-1066). Every call may fail, and the
 sandbox may change the candidate.
 */
module Verification {
  import opened Wrappers

  datatype Stage = Targeted | VisibleSuite | HiddenSuite

  datatype StageStatus = Passed | Failed | NotRun | Infrastructure

  datatype Code =
    | InvalidInput | StaticPrerequisiteFailed | CaseLoadFailed | CaseMismatch | CandidateInvalid | WorkspaceInvalid
    | VisibleTestInvalid | EvaluatorInvalid | BundleFailed | CleanupFailed | IntegrityFailed
    | SandboxValidationFailed | SandboxExecutionFailed | SandboxCleanupFailed | SandboxTimedOut | SandboxMemoryLimit
    | MalformedSandboxResult | PrerequisiteFailed

  datatype Completion = Normal | TimedOut | MemoryLimit

  datatype Evidence = Evidence(completion: Completion, exitCode: Option<int>)

  const MAX_EXIT_CODE := 0x7fff_ffff

  /** `VerificationSandboxEvidence.validate_completion`. */
  predicate ValidEvidence(e: Evidence) {
    && (e.exitCode.Some? ==> 0 <= e.exitCode.value <= MAX_EXIT_CODE)
    && (e.completion == Normal ==> e.exitCode.Some?)
    && (e.completion == TimedOut ==> e.exitCode.None?)
  }

  /** Normal completion with exit code zero. */
  predicate Passing(e: Evidence) {
    e == Evidence(Normal, Some(0))
  }

  datatype StageResult = StageResult(stage: Stage, status: StageStatus, evidence: Option<Evidence>, code: Option<Code>)

  const STAGES := [Targeted, VisibleSuite, HiddenSuite]

  /** `VerificationStageResult.validate_status`; evidence is here all there or absent. */
  predicate ValidStage(r: StageResult) {
    && (r.evidence.Some? ==> ValidEvidence(r.evidence.value))
    && match r.status
       case Passed => r.evidence.Some? && Passing(r.evidence.value) && r.code.None?
       case Failed => r.evidence.Some? && r.evidence.value.completion == Normal && !Passing(r.evidence.value) && r.code.None?
       case NotRun => r.evidence.None? && r.code == Some(PrerequisiteFailed)
       case Infrastructure =>
         && r.code.Some? && r.code.value != PrerequisiteFailed
         && (r.evidence.Some? ==> r.evidence.value.completion == CompletionFor(r.code.value))
  }

  /** The completion that evidence beside this diagnostic must have. */
  function CompletionFor(code: Code): Completion {
    match code
    case SandboxTimedOut => TimedOut
    case SandboxMemoryLimit => MemoryLimit
    case _ => Normal
  }

  datatype Verdict = AllPassed | CandidateFailed | InfrastructureDiagnostic

  function IndicesWith(stages: seq<StageResult>, status: StageStatus): set<nat> {
    set i: nat | i < |stages| && stages[i].status == status
  }

  /** `CandidateVerificationResult.validate_topology`: the derived outcome, or none when it raises. */
  function Topology(stages: seq<StageResult>): Option<Verdict> {
    if |stages| != 3 || (exists i :: 0 <= i < 3 && stages[i].stage != STAGES[i]) then None
    else if forall i :: 0 <= i < 3 ==> stages[i].status == Passed then Some(AllPassed)
    else
      var infrastructure, failures := IndicesWith(stages, Infrastructure), IndicesWith(stages, Failed);
      var blocking := if infrastructure != {} then infrastructure else failures;
      if exists b :: b in blocking && blocking == {b} && BlocksAt(stages, b) then
        Some(if infrastructure != {} then InfrastructureDiagnostic else CandidateFailed)
      else None
  }

  /** Only passes before, only not-runs after. */
  predicate BlocksAt(stages: seq<StageResult>, b: nat) {
    && b < |stages|
    && (forall i :: 0 <= i < b ==> stages[i].status == Passed)
    && forall i :: b < i < |stages| ==> stages[i].status == NotRun
  }

  // ---------------------------------------------------------------- the world

  datatype Fault =
    | RunnerValidation
    | RunnerError(code: RunnerCode)
    | ForeignRunnerError
    | BadValue
    | BundleCleanup
    | EvaluatorInput
    | StaticPrerequisite
    | OtherError
    | Interrupt

  datatype RunnerCode =
    | RunnerInvalidInput | DaemonSecurity | DockerFailed | RunnerTimedOut | RunnerMemoryLimit | RunnerMalformed | RunnerCleanup

  datatype Outcome<+T> = Done(value: T) | Raised(fault: Fault)

  type Bundle = nat

  /** The steps before the stages. */
  datatype Step = Request | Case | Workspace | DeclaredTests

  /** What happened, with what it showed. */
  datatype Event =
    | Ran(stage: Stage, candidate: int, answer: Outcome<Evidence>)
    | Checked(same: bool)
    | Created(bundle: Bundle)
    | Removed(bundle: Bundle, ok: bool)

  class World {
    /** The state of the candidate, contents and identities. */
    var candidate: int
    ghost var log: seq<Event>

    /** Some call failed, or gave what it should not: another case, malformed evidence, a changed candidate. */
    ghost var faulty: bool

    /** The first step before the stages that went wrong, and its fault; none is for another case's data. */
    ghost var stopped: Option<(Step, Option<Fault>)>

    /** The fault of the last attempt to make a bundle. */
    ghost var withheld: Option<Fault>

    constructor (candidate: int)
      ensures this.candidate == candidate && log == [] && !faulty && stopped.None? && withheld.None?
    {
      this.candidate := candidate;
      log, faulty, stopped, withheld := [], false, None, None;
    }

    method Prepare(step: Step) returns (o: Outcome<()>)
      modifies `faulty, `stopped
      ensures faulty <==> old(faulty) || o.Raised?
      ensures stopped == if o.Raised? then Some((step, Some(o.fault))) else old(stopped)
    {
      o := *;
      faulty := faulty || o.Raised?;
      stopped := if o.Raised? then Some((step, Some(o.fault))) else stopped;
    }

    method LoadCase(caseId: string) returns (o: Outcome<string>)
      modifies `faulty, `stopped
      ensures faulty <==> old(faulty) || o != Done(caseId)
      ensures stopped == if o.Raised? then Some((Case, Some(o.fault))) else if o.value != caseId then Some((Case, None)) else old(stopped)
    {
      o := *;
      faulty := faulty || o != Done(caseId);
      match o {
        case Done(found) => stopped := if found != caseId then Some((Case, None)) else stopped;
        case Raised(fault) => stopped := Some((Case, Some(fault)));
      }
    }

    /** `_candidate_state`: two equal inspections around a matching fingerprint. */
    method CandidateState() returns (o: Outcome<int>)
      modifies `faulty
      ensures o.Done? ==> o.value == candidate
      ensures faulty <==> old(faulty) || o.Raised?
    {
      if * {
        return Done(candidate);
      }
      var fault: Fault := *;
      o := Raised(fault);
      faulty := true;
    }

    method Identifier() returns (o: Outcome<bool>)
      modifies `faulty, `withheld
      ensures faulty <==> old(faulty) || o != Done(true)
      ensures withheld == if o.Raised? then Some(o.fault) else None
    {
      o := *;
      faulty := faulty || o != Done(true);
      withheld := if o.Raised? then Some(o.fault) else None;
    }

    /** A run of the tests; the candidate is whatever the sandbox leaves. */
    method Execute(stage: Stage) returns (o: Outcome<Evidence>)
      modifies this
      ensures log == old(log) + [Ran(stage, old(candidate), o)]
      ensures faulty <==> old(faulty) || !o.Done? || !ValidEvidence(o.value) || candidate != old(candidate)
    {
      o := *;
      log := log + [Ran(stage, candidate, o)];
      candidate := *;
      faulty := faulty || !o.Done? || !ValidEvidence(o.value) || candidate != old(candidate);
    }

    /** A bundle that may turn out malformed. */
    method CreateBundle() returns (o: Outcome<Option<Bundle>>)
      modifies `log, `faulty, `withheld
      ensures log == if o.Done? && o.value.Some? then old(log) + [Created(o.value.value)] else old(log)
      ensures faulty <==> old(faulty) || !o.Done? || o.value.None?
      ensures withheld == if o.Raised? then Some(o.fault) else None
    {
      o := *;
      withheld := if o.Raised? then Some(o.fault) else None;
      faulty := faulty || !o.Done? || o.value.None?;
      if o.Done? && o.value.Some? {
        log := log + [Created(o.value.value)];
      }
    }

    method RemoveBundle(bundle: Bundle) returns (o: Outcome<()>)
      modifies `log, `faulty
      ensures log == old(log) + [Removed(bundle, o.Done?)]
      ensures faulty <==> old(faulty) || o.Raised?
    {
      o := *;
      faulty := faulty || o.Raised?;
      log := log + [Removed(bundle, o.Done?)];
    }
  }

  // ---------------------------------------------------------------- results

  datatype Exit = Returned(stages: seq<StageResult>, verdict: Verdict) | ValidatorRaised | Interrupted

  function NotRunStage(stage: Stage): StageResult {
    StageResult(stage, NotRun, None, Some(PrerequisiteFailed))
  }

  /** The first stages passed, the others not run. */
  predicate PassedStages(stages: seq<StageResult>, n: nat) {
    && |stages| == 3 && n <= 3
    && forall i :: 0 <= i < 3 ==>
         stages[i].stage == STAGES[i] && if i < n then stages[i].status == Passed && ValidStage(stages[i]) else stages[i] == NotRunStage(STAGES[i])
  }

  /** `_stage_from_evidence`. */
  function StageFromEvidence(stage: Stage, e: Evidence): (r: StageResult)
    requires ValidEvidence(e)
    ensures r.stage == stage && ValidStage(r) && r.status != NotRun
    ensures r.status == Passed <==> Passing(e)
  {
    match e.completion
    case TimedOut => StageResult(stage, Infrastructure, Some(e), Some(SandboxTimedOut))
    case MemoryLimit => StageResult(stage, Infrastructure, Some(e), Some(SandboxMemoryLimit))
    case Normal => StageResult(stage, if e.exitCode == Some(0) then Passed else Failed, Some(e), None)
  }

  /** A result that ends with this stage, or the validator's exception. */
  function Conclude(stages: seq<StageResult>): Exit {
    match Topology(stages)
    case None => ValidatorRaised
    case Some(verdict) => Returned(stages, verdict)
  }

  /** `_infrastructure_result`. */
  function InfrastructureResult(stages: seq<StageResult>, index: nat, code: Code, evidence: Option<Evidence>): (r: Exit)
    requires PassedStages(stages, index) && index < 3 && code != PrerequisiteFailed
    requires evidence.Some? ==> ValidEvidence(evidence.value) && code !in {SandboxTimedOut, SandboxMemoryLimit}
    ensures r.ValidatorRaised? <==> evidence.Some? && evidence.value.completion != Normal
    ensures r.Returned? ==> r.verdict == InfrastructureDiagnostic && BlocksAt(r.stages, index) && r.stages[index].code == Some(code)
    ensures !r.Interrupted?
    ensures r.Returned? ==> |r.stages| == 3 && r.stages[index].status == Infrastructure && r.stages[index].evidence == evidence
    ensures r.Returned? ==> Topology(r.stages) == Some(r.verdict) && forall i :: 0 <= i < |r.stages| ==> ValidStage(r.stages[i])
  {
    var stage := StageResult(STAGES[index], Infrastructure, evidence, Some(code));
    if !ValidStage(stage) then ValidatorRaised
    else
      BlockedTopology(stages, index, stage);
      Conclude(stages[index := stage])
  }

  /** One stage that did not pass after those that did blocks the others. */
  lemma BlockedTopology(stages: seq<StageResult>, index: nat, stage: StageResult)
    requires PassedStages(stages, index) && index < 3 && stage.stage == STAGES[index]
    requires stage.status in {Failed, Infrastructure}
    ensures BlocksAt(stages[index := stage], index)
    ensures Topology(stages[index := stage])
         == Some(if stage.status == Infrastructure then InfrastructureDiagnostic else CandidateFailed)
  {
    var all := stages[index := stage];
    assert IndicesWith(all, stage.status) == {index};
    assert all[index].status != Passed;
    if stage.status == Failed {
      assert IndicesWith(all, Infrastructure) == {};
    }
  }

  /** The topologies accepted: all stages passed, or one stage blocks, which failed or met a broken boundary. */
  lemma TopologyIsShortCircuit(stages: seq<StageResult>, verdict: Verdict)
    requires |stages| == 3 && forall i :: 0 <= i < 3 ==> stages[i].stage == STAGES[i]
    ensures Topology(stages) == Some(verdict) <==>
              match verdict
              case AllPassed => forall i :: 0 <= i < 3 ==> stages[i].status == Passed
              case CandidateFailed => exists b: nat :: BlocksAt(stages, b) && stages[b].status == Failed
              case InfrastructureDiagnostic => exists b: nat :: BlocksAt(stages, b) && stages[b].status == Infrastructure
  {
    if b: nat :| BlocksAt(stages, b) && stages[b].status in {Failed, Infrastructure} {
      assert IndicesWith(stages, stages[b].status) == {b};
      assert stages[b].status == Failed ==> IndicesWith(stages, Infrastructure) == {};
    }
    if Topology(stages).Some? && Topology(stages) != Some(AllPassed) {
      var infrastructure, failures := IndicesWith(stages, Infrastructure), IndicesWith(stages, Failed);
      var blocking := if infrastructure != {} then infrastructure else failures;
      var b :| b in blocking && blocking == {b} && BlocksAt(stages, b);
    }
  }

  function PassedStage(stage: Stage): StageResult {
    StageResult(stage, Passed, Some(Evidence(Normal, Some(0))), None)
  }

  /** One stage between those that passed and those that did not run. */
  predicate StandsAlone(stages: seq<StageResult>, b: nat) {
    && b < |stages| == 3 && stages[b].stage == STAGES[b]
    && (forall i :: 0 <= i < b ==> stages[i] == PassedStage(STAGES[i]))
    && forall i :: b < i < 3 ==> stages[i] == NotRunStage(STAGES[i])
  }

  predicate FailedTests(r: StageResult) {
    && r.status == Failed && r.code.None? && r.evidence.Some? && r.evidence.value.completion == Normal
    && r.evidence.value.exitCode.Some? && 1 <= r.evidence.value.exitCode.value <= 0x7fff_ffff
  }

  /** A timeout has no exit code and its own code; so does the memory limit, with any exit code or none. */
  predicate BrokenInfrastructure(r: StageResult) {
    && r.status == Infrastructure && r.code.Some? && r.code.value != PrerequisiteFailed
    && (r.evidence.Some? ==>
         var exit := r.evidence.value.exitCode;
         && (exit.Some? ==> 0 <= exit.value <= 0x7fff_ffff)
         && match r.evidence.value.completion
            case Normal => exit.Some? && r.code.value !in {SandboxTimedOut, SandboxMemoryLimit}
            case TimedOut => exit.None? && r.code.value == SandboxTimedOut
            case MemoryLimit => r.code.value == SandboxMemoryLimit)
  }

  predicate StageExactly(r: StageResult) {
    ValidStage(r) <==>
      match r.status
      case Passed => r == PassedStage(r.stage)
      case Failed => FailedTests(r)
      case NotRun => r == NotRunStage(r.stage)
      case Infrastructure => BrokenInfrastructure(r)
  }

  lemma StageIsExactly(r: StageResult)
    ensures StageExactly(r)
  {
  }

  lemma NoTopology(stages: seq<StageResult>)
    requires |stages| != 3 || exists i :: 0 <= i < 3 && stages[i].stage != STAGES[i]
    ensures Topology(stages).None?
  {
  }

  lemma AloneExactly(stages: seq<StageResult>, b: nat)
    requires |stages| == 3 && b < 3 && forall i :: 0 <= i < 3 ==> stages[i].stage == STAGES[i] && StageExactly(stages[i])
    ensures (stages[b].status == Failed && BlocksAt(stages, b) && forall i :: 0 <= i < 3 ==> ValidStage(stages[i]))
        <==> StandsAlone(stages, b) && FailedTests(stages[b])
    ensures (stages[b].status == Infrastructure && BlocksAt(stages, b) && forall i :: 0 <= i < 3 ==> ValidStage(stages[i]))
        <==> StandsAlone(stages, b) && BrokenInfrastructure(stages[b])
  {
    hide ValidStage;
  }

  /** The results the validators accept. */
  lemma ResultExactly(stages: seq<StageResult>, verdict: Verdict)
    ensures ValidResult(stages, verdict) <==>
              match verdict
              case AllPassed => stages == [PassedStage(Targeted), PassedStage(VisibleSuite), PassedStage(HiddenSuite)]
              case CandidateFailed => exists b: nat :: StandsAlone(stages, b) && FailedTests(stages[b])
              case InfrastructureDiagnostic => exists b: nat :: StandsAlone(stages, b) && BrokenInfrastructure(stages[b])
  {
    hide Topology, ValidStage, FailedTests, BrokenInfrastructure;
    forall i | 0 <= i < |stages| ensures StageExactly(stages[i]) {
      StageIsExactly(stages[i]);
    }
    if |stages| == 3 && forall i :: 0 <= i < 3 ==> stages[i].stage == STAGES[i] {
      TopologyIsShortCircuit(stages, verdict);
      AloneExactly(stages, 0);
      AloneExactly(stages, 1);
      AloneExactly(stages, 2);
    } else {
      NoTopology(stages);
    }
  }

  lemma PassedTopology(stages: seq<StageResult>)
    requires PassedStages(stages, 3)
    ensures Topology(stages) == Some(AllPassed)
  {
  }

  // ---------------------------------------------------------------- legal runs

  const PASSING := Evidence(Normal, Some(0))

  /** The first stages ran on this candidate, passed, and left it as it was. */
  predicate PassedEvents(log: seq<Event>, candidate: int, n: nat) {
    2 * n <= |log| && n <= 2
    && forall i :: 0 <= i < n ==> log[2 * i] == Ran(STAGES[i], candidate, Done(PASSING)) && log[2 * i + 1] == Checked(true)
  }

  /** An event that may come at this place. */
  predicate Legal(log: seq<Event>, candidate: int, k: nat)
    requires k < |log|
  {
    match log[k]
    case Checked(_) => true
    case Created(_) => k == 4 && PassedEvents(log, candidate, 2)
    case Removed(bundle, _) => 4 < k && log[4] == Created(bundle)
    case Ran(stage, on, _) =>
      && on == candidate
      && match stage
         case Targeted => k == 0
         case VisibleSuite => k == 2 && PassedEvents(log, candidate, 1)
         case HiddenSuite => k == 6 && PassedEvents(log, candidate, 2) && log[4].Created? && log[5] == Checked(true)
  }

  predicate LegalLog(log: seq<Event>, candidate: int) {
    forall k :: 0 <= k < |log| ==> Legal(log, candidate, k)
  }

  /** Every bundle was removed as often as it was made: one attempt each. */
  ghost predicate Balanced(log: seq<Event>) {
    forall bundle ::
      multiset(log)[Created(bundle)] == multiset(log)[Removed(bundle, true)] + multiset(log)[Removed(bundle, false)]
  }

  /** Evidence of a timeout or of the memory limit, and after it a changed candidate or a failed removal. */
  predicate Clash(log: seq<Event>) {
    exists i, j :: 0 <= i < j < |log| && Abnormal(log[i]) && Spoiled(log[j])
  }

  predicate Abnormal(event: Event) {
    event.Ran? && event.answer.Done? && ValidEvidence(event.answer.value) && event.answer.value.completion != Normal
  }

  predicate Spoiled(event: Event) {
    event == Checked(false) || (event.Removed? && !event.ok)
  }

  /** All three stages passed on the same candidate, the bundle was removed, and nothing had changed at the end. */
  predicate FullRun(log: seq<Event>, candidate: int) {
    && |log| == 9
    && PassedEvents(log, candidate, 2)
    && log[4].Created?
    && log[5] == Checked(true)
    && log[6] == Ran(HiddenSuite, candidate, Done(PASSING))
    && log[7] == Removed(log[4].bundle, true)
    && log[8] == Checked(true)
  }

  predicate ValidResult(stages: seq<StageResult>, verdict: Verdict) {
    Topology(stages) == Some(verdict) && forall i :: 0 <= i < |stages| ==> ValidStage(stages[i])
  }

  /** The stage's result is what the evidence of its run says. */
  predicate StageShows(result: StageResult, log: seq<Event>, k: nat) {
    && k < |log| && log[k].Ran? && log[k].answer.Done? && ValidEvidence(log[k].answer.value)
    && result == StageFromEvidence(log[k].stage, log[k].answer.value)
  }

  /** The evidence alone decides: every stage up to the first that does not pass, and not run after it. */
  predicate Judged(exit: Exit, log: seq<Event>) {
    && exit.Returned? && |exit.stages| == 3
    && StageShows(exit.stages[0], log, 0)
    && if exit.stages[0].status != Passed then exit.stages[1..] == [NotRunStage(VisibleSuite), NotRunStage(HiddenSuite)]
       else
         && StageShows(exit.stages[1], log, 2)
         && if exit.stages[1].status != Passed then exit.stages[2] == NotRunStage(HiddenSuite)
            else StageShows(exit.stages[2], log, 6)
  }

  // ---------------------------------------------------------------- why infrastructure stopped a run

  /** What is kept of a run of the tests: evidence that is valid. */
  function EvidenceOf(ran: Event): Option<Evidence>
    requires ran.Ran?
  {
    if ran.answer.Done? && ValidEvidence(ran.answer.value) then Some(ran.answer.value) else None
  }

  /** The code of a run of the tests that left no valid evidence, by what the runner raised or gave. */
  predicate NamesRefusal(code: Code, answer: Outcome<Evidence>) {
    match code
    case SandboxValidationFailed =>
      answer in {Raised(RunnerValidation), Raised(RunnerError(RunnerInvalidInput)), Raised(RunnerError(DaemonSecurity))}
    case SandboxTimedOut => answer == Raised(RunnerError(RunnerTimedOut))
    case SandboxMemoryLimit => answer == Raised(RunnerError(RunnerMemoryLimit))
    case SandboxCleanupFailed => answer == Raised(RunnerError(RunnerCleanup))
    case MalformedSandboxResult => answer in {Raised(BadValue), Raised(RunnerError(RunnerMalformed))} || answer.Done?
    case SandboxExecutionFailed =>
      && answer.Raised?
      && (answer.fault in {ForeignRunnerError, BundleCleanup, EvaluatorInput, StaticPrerequisite, OtherError}
          || answer.fault == RunnerError(DockerFailed))
    case _ => false
  }

  /** The result of a stage that infrastructure stopped: a changed candidate goes first, then what the run came to. */
  predicate Explains(result: StageResult, ran: Event, same: bool) {
    && ran.Ran? && result.code.Some? && result.evidence == EvidenceOf(ran)
    && if !same then result.code.value == IntegrityFailed
       else if result.evidence.None? then NamesRefusal(result.code.value, ran.answer)
       else if result.evidence.value.completion == TimedOut then result.code.value == SandboxTimedOut
       else result.evidence.value.completion == MemoryLimit && result.code.value == SandboxMemoryLimit
  }

  /** The same of the hidden suite: without a bundle, then a bundle that stays, then a changed candidate, then the run. */
  predicate ExplainsHidden(result: StageResult, log: seq<Event>) {
    && |log| >= 5 && log[|log| - 1].Checked? && result.code.Some?
    && if log[4].Checked? then
         && result.evidence.None?
         && (result.code.value == CleanupFailed
             || if log[4].same then result.code.value in {EvaluatorInvalid, BundleFailed} else result.code.value == IntegrityFailed)
       else
         && |log| >= 8 && log[|log| - 2].Removed?
         && if !log[|log| - 2].ok then
              && result.code.value == CleanupFailed
              && result.evidence == if log[6].Ran? then EvidenceOf(log[6]) else None
            else if log[6].Ran? then Explains(result, log[6], log[|log| - 1].same)
            else result.code.value == IntegrityFailed && result.evidence.None?
  }

  /** Whatever the calls did, a stage that infrastructure stopped says why. */
  predicate Explained(stages: seq<StageResult>, log: seq<Event>) {
    forall b :: 0 <= b < |stages| && stages[b].status == Infrastructure && log != [] ==>
      if b < 2 then |log| == 2 * b + 2 && log[2 * b + 1].Checked? && Explains(stages[b], log[2 * b], log[2 * b + 1].same)
      else ExplainsHidden(stages[b], log)
  }

  /** What the code of a refusal before the stages says. */
  predicate NamesStep(code: Code, stopped: Option<(Step, Option<Fault>)>) {
    match stopped
    case None => code == CandidateInvalid
    case Some((Request, fault)) =>
      if fault == Some(StaticPrerequisite) then code == StaticPrerequisiteFailed else code == InvalidInput
    case Some((Case, fault)) => if fault.Some? then code == CaseLoadFailed else code == CaseMismatch
    case Some((Workspace, _)) => code == WorkspaceInvalid
    case Some((DeclaredTests, _)) => code == VisibleTestInvalid
  }

  predicate RefusedFor(exit: Exit, stopped: Option<(Step, Option<Fault>)>) {
    exit.Returned? ==> |exit.stages| == 3 && exit.stages[0].code.Some? && NamesStep(exit.stages[0].code.value, stopped)
  }

  lemma FaultExplains(result: StageResult, ran: Event, same: bool)
    requires ran.Ran? && result.code.Some? && result.evidence == EvidenceOf(ran)
    requires if !same then result.code.value == IntegrityFailed
             else result.evidence.None? && NamesRefusal(result.code.value, ran.answer)
    ensures Explains(result, ran, same)
  {
  }

  lemma EvidenceExplains(stage: Stage, ran: Event)
    requires ran.Ran? && ran.answer.Done? && ValidEvidence(ran.answer.value)
    ensures var result := StageFromEvidence(stage, ran.answer.value); result.status == Infrastructure ==> Explains(result, ran, true)
  {
  }

  /** Only the blocking stage can have met broken infrastructure. */
  lemma ExplainedAt(stages: seq<StageResult>, b: nat, log: seq<Event>)
    requires BlocksAt(stages, b) && b < 3 && |stages| == 3
    requires stages[b].status == Infrastructure && log != [] ==>
               if b < 2 then |log| == 2 * b + 2 && log[2 * b + 1].Checked? && Explains(stages[b], log[2 * b], log[2 * b + 1].same)
               else ExplainsHidden(stages[b], log)
    ensures Explained(stages, log)
  {
    hide Explains, ExplainsHidden;
  }

  /** What every way out of the protocol guarantees of what happened on the way. */
  ghost predicate Concluded(exit: Exit, log: seq<Event>, candidate: int, faulty: bool) {
    && (!faulty ==> Judged(exit, log))
    && LegalLog(log, candidate)
    && Balanced(log)
    && match exit
       case Interrupted => true
       case ValidatorRaised => Clash(log)
       case Returned(stages, verdict) =>
         && ValidResult(stages, verdict)
         && !Clash(log)
         && Explained(stages, log)
         && (verdict == AllPassed ==> FullRun(log, candidate))
  }

  lemma LegalStep(log: seq<Event>, event: Event, candidate: int)
    requires LegalLog(log, candidate) && Legal(log + [event], candidate, |log|)
    ensures LegalLog(log + [event], candidate)
  {
    var all := log + [event];
    forall k | 0 <= k < |all| ensures Legal(all, candidate, k) {
      if k < |log| {
        assert Legal(log, candidate, k);
        assert forall i :: 0 <= i < |log| ==> all[i] == log[i];
      }
    }
  }

  lemma BalancedStep(log: seq<Event>, event: Event)
    requires Balanced(log) && (event.Checked? || event.Ran?)
    ensures Balanced(log + [event])
  {
    assert multiset(log + [event]) == multiset(log) + multiset{event};
  }

  lemma BalancedPair(log: seq<Event>, bundle: Bundle, between: seq<Event>, ok: bool)
    requires Balanced(log) && Balanced(between)
    ensures Balanced(log + [Created(bundle)] + between + [Removed(bundle, ok)])
  {
    var all := log + [Created(bundle)] + between + [Removed(bundle, ok)];
    assert multiset(all) == multiset(log) + multiset{Created(bundle)} + multiset(between) + multiset{Removed(bundle, ok)};
  }

  lemma ClashStep(log: seq<Event>, event: Event)
    ensures Clash(log + [event]) <==> Clash(log) || (Spoiled(event) && exists i :: 0 <= i < |log| && Abnormal(log[i]))
  {
    var all := log + [event];
    assert forall i :: 0 <= i < |log| ==> all[i] == log[i];
    if Clash(all) && !Clash(log) {
      var i, j :| 0 <= i < j < |all| && Abnormal(all[i]) && Spoiled(all[j]);
      assert j == |log|;
    }
    if i :| 0 <= i < |log| && Abnormal(log[i]) && Spoiled(event) {
      assert Abnormal(all[i]) && Spoiled(all[|log|]);
    }
  }

  /** The hidden suite ran only after both visible stages had passed on the same, unchanged candidate. */
  lemma HiddenAfterVisible(log: seq<Event>, candidate: int, k: nat)
    requires LegalLog(log, candidate) && k < |log| && log[k].Ran? && log[k].stage == HiddenSuite
    ensures log[k].candidate == candidate
    ensures exists i, j :: 0 <= i < j < k && log[i] == Ran(Targeted, candidate, Done(PASSING))
                           && log[j] == Ran(VisibleSuite, candidate, Done(PASSING)) && log[k - 1] == Checked(true)
  {
    assert Legal(log, candidate, k);
    assert log[2 * 0] == Ran(STAGES[0], candidate, Done(PASSING));
    assert log[2 * 1] == Ran(STAGES[1], candidate, Done(PASSING));
    assert 0 <= 0 < 2 < k;
  }

  /** Each stage ran at most once. */
  lemma StagesOnce(log: seq<Event>, candidate: int, i: nat, j: nat)
    requires LegalLog(log, candidate) && i < j < |log| && log[i].Ran? && log[j].Ran?
    ensures log[i].stage != log[j].stage
  {
    assert Legal(log, candidate, i) && Legal(log, candidate, j);
  }

  // ---------------------------------------------------------------- the service

  /** `_integrity_matches`; none when interrupted. */
  method CheckIntegrity(world: World, expected: int) returns (same: Option<bool>)
    modifies world`log, world`faulty
    ensures same.Some? ==> world.log == old(world.log) + [Checked(same.value)] && (same.value ==> world.candidate == expected)
    ensures same.None? ==> world.log == old(world.log)
    ensures !world.faulty ==> !old(world.faulty) && same.Some? && (same.value <==> world.candidate == expected)
  {
    var state := world.CandidateState();
    if state == Raised(Interrupt) {
      return None;
    }
    same := Some(state == Done(expected));
    world.log := world.log + [Checked(same.value)];
  }

  datatype Execution = Completed(evidence: Evidence) | Refused(code: Code) | Broken

  /** `_runner_diagnostic`. */
  function RunnerDiagnostic(code: RunnerCode): (r: Code)
    ensures r != PrerequisiteFailed
  {
    match code
    case RunnerInvalidInput => SandboxValidationFailed
    case DaemonSecurity => SandboxValidationFailed
    case DockerFailed => SandboxExecutionFailed
    case RunnerTimedOut => SandboxTimedOut
    case RunnerMemoryLimit => SandboxMemoryLimit
    case RunnerMalformed => MalformedSandboxResult
    case RunnerCleanup => SandboxCleanupFailed
  }

  /** `_execute_stage`: valid evidence, or why there is none. */
  method ExecuteStage(world: World, stage: Stage) returns (r: Execution)
    modifies world
    ensures |world.log| == |old(world.log)| + 1 && world.log[..|old(world.log)|] == old(world.log)
    ensures var event := world.log[|old(world.log)|];
            && event.Ran? && event.stage == stage && event.candidate == old(world.candidate)
            && (r.Completed? ==> event.answer == Done(r.evidence) && ValidEvidence(r.evidence))
            && (Abnormal(event) ==> r.Completed?)
    ensures r.Refused? ==> r.code != PrerequisiteFailed
    ensures var event := world.log[|old(world.log)|];
            && EvidenceOf(event) == (if r.Completed? then Some(r.evidence) else None)
            && (r.Refused? ==> NamesRefusal(r.code, event.answer))
            && (r.Broken? <==> event.answer == Raised(Interrupt))
    ensures !world.faulty ==> !old(world.faulty) && r.Completed? && world.candidate == old(world.candidate)
  {
    var raw := world.Execute(stage);
    match raw {
      case Done(evidence) =>
        r := if ValidEvidence(evidence) then Completed(evidence) else Refused(MalformedSandboxResult);
      case Raised(Interrupt) => r := Broken;
      case Raised(RunnerValidation) => r := Refused(SandboxValidationFailed);
      case Raised(RunnerError(code)) => r := Refused(RunnerDiagnostic(code));
      case Raised(ForeignRunnerError) => r := Refused(SandboxExecutionFailed);
      case Raised(BadValue) => r := Refused(MalformedSandboxResult);
      case Raised(_) => r := Refused(SandboxExecutionFailed);
    }
  }

  /** The log before the next stage: the visible ones before it passed. */
  ghost predicate Ready(log: seq<Event>, candidate: int, n: nat) {
    |log| == 2 * n && PassedEvents(log, candidate, n) && LegalLog(log, candidate) && Balanced(log) && !Clash(log)
  }

  /** The events before stay where they are in a longer log. */
  lemma ReadyEvents(log: seq<Event>, candidate: int, n: nat)
    requires Ready(log, candidate, n) && n <= 2
    ensures |log| == 2 * n && forall longer: seq<Event> :: log <= longer ==> PassedEvents(longer, candidate, n)
  {
    hide LegalLog, Balanced, Clash;
  }

  lemma NothingYet(candidate: int)
    ensures Ready([], candidate, 0)
  {
  }

  /** A visible stage and its check: what they can add to the log. */
  lemma VisibleEvents(log: seq<Event>, candidate: int, n: nat, ran: Event, same: bool)
    requires Ready(log, candidate, n) && n < 2
    requires ran.Ran? && ran.stage == STAGES[n] && ran.candidate == candidate
    ensures Concluded(Interrupted, log + [ran], candidate, true)
    ensures LegalLog(log + [ran, Checked(same)], candidate) && Balanced(log + [ran, Checked(same)])
    ensures Clash(log + [ran, Checked(same)]) <==> Abnormal(ran) && !same
    ensures same && ran.answer == Done(PASSING) ==> Ready(log + [ran, Checked(same)], candidate, n + 1)
  {
    hide Legal, Balanced, Clash, LegalLog;
    var one, two := log + [ran], log + [ran] + [Checked(same)];
    assert two == log + [ran, Checked(same)];
    VisibleLegal(log, candidate, n, ran);
    LegalStep(log, ran, candidate);
    CheckedLegal(one, same, candidate);
    LegalStep(one, Checked(same), candidate);
    BalancedStep(log, ran);
    BalancedStep(one, Checked(same));
    ClashStep(log, ran);
    ClashStep(one, Checked(same));
    NoAbnormal(log, candidate, n);
    assert one[|log|] == ran;
    assert forall i :: 0 <= i < |log| ==> one[i] == log[i];
  }

  lemma CheckedLegal(log: seq<Event>, same: bool, candidate: int)
    ensures Legal(log + [Checked(same)], candidate, |log|)
  {
  }

  lemma VisibleLegal(log: seq<Event>, candidate: int, n: nat, ran: Event)
    requires |log| == 2 * n && PassedEvents(log, candidate, n) && n < 2
    requires ran.Ran? && ran.stage == STAGES[n] && ran.candidate == candidate
    ensures Legal(log + [ran], candidate, |log|)
  {
  }

  lemma NoAbnormal(log: seq<Event>, candidate: int, n: nat)
    requires |log| == 2 * n && PassedEvents(log, candidate, n)
    ensures forall i :: 0 <= i < |log| ==> !Abnormal(log[i])
  {
    forall i | 0 <= i < |log| ensures !Abnormal(log[i]) {
      var k := i / 2;
      assert i == 2 * k || i == 2 * k + 1;
      assert log[2 * k] == Ran(STAGES[k], candidate, Done(PASSING)) && log[2 * k + 1] == Checked(true);
    }
  }

  /** Passed stages show the passing evidence of their runs. */
  lemma PassedShows(stages: seq<StageResult>, n: nat, log: seq<Event>, candidate: int)
    requires n <= 2 && PassedStages(stages, n) && PassedEvents(log, candidate, n)
    ensures forall i :: 0 <= i < n ==> StageShows(stages[i], log, 2 * i)
  {
    forall i | 0 <= i < n ensures StageShows(stages[i], log, 2 * i) {
      assert log[2 * i] == Ran(STAGES[i], candidate, Done(PASSING));
    }
  }

  /** A visible stage that does not pass ends a run its evidence decides. */
  lemma JudgedAtVisible(before: seq<StageResult>, index: nat, stage: StageResult, log: seq<Event>, candidate: int)
    requires index < 2 && PassedStages(before, index) && PassedEvents(log, candidate, index)
    requires StageShows(stage, log, 2 * index) && stage.status != Passed
    requires Conclude(before[index := stage]).Returned?
    ensures Judged(Conclude(before[index := stage]), log)
  {
    hide Topology, StageFromEvidence, PassedEvents, ValidStage;
    PassedShows(before, index, log, candidate);
    var stages := before[index := stage];
    assert Conclude(stages) == Returned(stages, Topology(stages).value);
    if index == 0 {
      assert stages[1..] == [NotRunStage(VisibleSuite), NotRunStage(HiddenSuite)];
    } else {
      assert StageShows(stages[0], log, 2 * 0);
    }
  }

  lemma JudgedAtHidden(before: seq<StageResult>, stage: StageResult, log: seq<Event>, candidate: int)
    requires PassedStages(before, 2) && PassedEvents(log, candidate, 2)
    requires StageShows(stage, log, 6) && Conclude(before[2 := stage]).Returned?
    ensures Judged(Conclude(before[2 := stage]), log)
  {
    hide Topology, StageFromEvidence, PassedEvents, ValidStage;
    PassedShows(before, 2, log, candidate);
    var stages := before[2 := stage];
    assert Conclude(stages) == Returned(stages, Topology(stages).value);
    assert StageShows(stages[0], log, 2 * 0) && StageShows(stages[1], log, 2 * 1);
  }

  /** The targeted tests or the visible suite. */
  method RunVisible(world: World, expected: int, before: seq<StageResult>,
      index: nat) returns (stages: seq<StageResult>, stop: Option<Exit>)
    requires index < 2 && PassedStages(before, index) && world.candidate == expected && Ready(world.log, expected, index)
    modifies world
    ensures stop.Some? ==> Concluded(stop.value, world.log, expected, world.faulty) && world.log != []
    ensures |world.log| <= 2 * index + 2
    ensures stop.None? ==> PassedStages(stages, index + 1) && world.candidate == expected && Ready(world.log, expected, index + 1)
  {
    hide LegalLog, Balanced, Clash, PassedEvents, InfrastructureResult, Topology, StageFromEvidence, ValidStage,
        Ready, BlocksAt;
    stages := before;
    ghost var log := world.log;
    ReadyEvents(log, expected, index);
    var execution := ExecuteStage(world, STAGES[index]);
    ghost var ran := world.log[|log|];
    assert world.log == log + [ran];
    VisibleEvents(log, expected, index, ran, true);
    VisibleEvents(log, expected, index, ran, false);
    if execution.Broken? {
      stop := Some(Interrupted);
      return;
    }
    var integrity := CheckIntegrity(world, expected);
    if integrity.None? {
      stop := Some(Interrupted);
      return;
    }
    assert world.log == log + [ran, Checked(integrity.value)];
    var evidence := if execution.Completed? then Some(execution.evidence) else None;
    if !integrity.value {
      stop := Some(InfrastructureResult(stages, index, IntegrityFailed, evidence));
      VisibleExplained(stop.value, index, log, ran, false);
    } else if execution.Refused? {
      stop := Some(InfrastructureResult(stages, index, execution.code, None));
      VisibleExplained(stop.value, index, log, ran, true);
    } else {
      var stage := StageFromEvidence(STAGES[index], execution.evidence);
      stages := stages[index := stage];
      if stage.status != Passed {
        StageBlocks(before, index, stage);
        JudgedAtVisible(before, index, stage, world.log, expected);
        stop := Some(Conclude(stages));
        EvidenceExplains(STAGES[index], ran);
        VisibleExplained(stop.value, index, log, ran, true);
      } else {
        stop := None;
      }
    }
  }

  lemma VisibleExplained(exit: Exit, index: nat, log: seq<Event>, ran: Event, same: bool)
    requires index < 2 && |log| == 2 * index
    requires exit.Returned? ==>
               && |exit.stages| == 3 && BlocksAt(exit.stages, index)
               && (exit.stages[index].status == Infrastructure ==> Explains(exit.stages[index], ran, same))
    ensures exit.Returned? ==> Explained(exit.stages, log + [ran, Checked(same)])
  {
    hide Explains, BlocksAt;
    if exit.Returned? {
      ExplainedAt(exit.stages, index, log + [ran, Checked(same)]);
    }
  }

  /** A stage that did not pass ends the run with a valid result. */
  lemma StageBlocks(before: seq<StageResult>, index: nat, stage: StageResult)
    requires PassedStages(before, index) && index < 3 && stage.stage == STAGES[index]
    requires stage.status in {Failed, Infrastructure} && ValidStage(stage)
    ensures var exit := Conclude(before[index := stage]);
            && exit.Returned? && ValidResult(exit.stages, exit.verdict) && exit.verdict != AllPassed
            && |exit.stages| == 3 && BlocksAt(exit.stages, index) && exit.stages[index] == stage
  {
    hide ValidEvidence;
    BlockedTopology(before, index, stage);
  }

  /** What can lie between making a bundle and removing it: nothing, a check, or a passed check and the hidden suite. */
  predicate Between(between: seq<Event>, candidate: int) {
    || between == []
    || (|between| == 1 && between[0].Checked?)
    || (|between| == 2 && between[0] == Checked(true) && between[1].Ran? && between[1].stage == HiddenSuite && between[1].candidate == candidate)
  }

  function Bracketed(log: seq<Event>, bundle: Bundle, between: seq<Event>, ok: bool): seq<Event> {
    log + [Created(bundle)] + between + [Removed(bundle, ok)]
  }

  lemma BracketedLegal(log: seq<Event>, candidate: int, bundle: Bundle, between: seq<Event>, ok: bool)
    requires |log| == 4 && PassedEvents(log, candidate, 2) && LegalLog(log, candidate) && Between(between, candidate)
    ensures LegalLog(Bracketed(log, bundle, between, ok), candidate)
  {
    var all := Bracketed(log, bundle, between, ok);
    assert forall i :: 0 <= i < 4 ==> all[i] == log[i];
    assert all[4] == Created(bundle) && all[|all| - 1] == Removed(bundle, ok);
    assert forall i :: 0 <= i < |between| ==> all[5 + i] == between[i];
    assert PassedEvents(all, candidate, 2) && PassedEvents(all, candidate, 1);
    forall k | 0 <= k < |all| ensures Legal(all, candidate, k) {
      if k < 4 {
        assert Legal(log, candidate, k);
      } else if 5 <= k < |all| - 1 {
        assert all[k] == between[k - 5];
      }
    }
  }

  predicate AbnormalBetween(between: seq<Event>) {
    |between| == 2 && Abnormal(between[1])
  }

  lemma BracketedClash(log: seq<Event>, candidate: int, bundle: Bundle, between: seq<Event>, ok: bool)
    requires |log| == 4 && PassedEvents(log, candidate, 2) && !Clash(log) && Between(between, candidate)
    ensures var all := Bracketed(log, bundle, between, ok);
            && (Clash(all) <==> AbnormalBetween(between) && !ok)
            && ((exists i :: 0 <= i < |all| && Abnormal(all[i])) <==> AbnormalBetween(between))
  {
    hide Abnormal, PassedEvents, Bracketed;
    var all := Bracketed(log, bundle, between, ok);
    BracketedAbnormal(log, candidate, bundle, between, ok);
    if AbnormalBetween(between) {
      assert Abnormal(all[6]);
      if !ok {
        assert Spoiled(all[7]);
      }
    }
  }

  lemma BracketedAbnormal(log: seq<Event>, candidate: int, bundle: Bundle, between: seq<Event>, ok: bool)
    requires |log| == 4 && PassedEvents(log, candidate, 2) && Between(between, candidate)
    ensures var all := Bracketed(log, bundle, between, ok);
            && |all| == 6 + |between| && all[|all| - 1] == Removed(bundle, ok)
            && forall i :: 0 <= i < |all| ==> (Abnormal(all[i]) <==> i == 6 && AbnormalBetween(between))
  {
    hide Abnormal, PassedEvents;
    var all := Bracketed(log, bundle, between, ok);
    NoAbnormal(log, candidate, 2);
    NotRan();
    assert forall i :: 0 <= i < 4 ==> all[i] == log[i];
    forall i | 0 <= i < |all| ensures Abnormal(all[i]) <==> i == 6 && AbnormalBetween(between) {
      if 5 <= i < |all| - 1 {
        assert all[i] == between[i - 5];
      }
    }
  }

  lemma NotRan()
    ensures forall event: Event :: Abnormal(event) ==> event.Ran?
  {
  }

  lemma EmptyBalanced(between: seq<Event>, candidate: int)
    requires Between(between, candidate)
    ensures Balanced(between)
  {
  }

  lemma HiddenPasses(log: seq<Event>, candidate: int, bundle: Bundle)
    requires |log| == 4 && PassedEvents(log, candidate, 2)
    ensures var between := [Checked(true), Ran(HiddenSuite, candidate, Done(PASSING))];
            FullRun(Bracketed(log, bundle, between, true) + [Checked(true)], candidate)
  {
  }

  /** The log once the bundle is gone, and once the candidate was checked again. */
  lemma HiddenEvents(log: seq<Event>, candidate: int, bundle: Bundle, between: seq<Event>, ok: bool, same: bool)
    requires Ready(log, candidate, 2) && Between(between, candidate)
    ensures Concluded(Interrupted, Bracketed(log, bundle, between, ok), candidate, true)
    ensures var all := Bracketed(log, bundle, between, ok) + [Checked(same)];
            && LegalLog(all, candidate) && Balanced(all)
            && (Clash(all) <==> AbnormalBetween(between) && (!ok || !same))
            && (between == [Checked(true), Ran(HiddenSuite, candidate, Done(PASSING))] && ok && same ==> FullRun(all, candidate))
  {
    hide Legal, LegalLog, Balanced, Clash, Abnormal, Between, FullRun, PassedEvents;
    if between == [Checked(true), Ran(HiddenSuite, candidate, Done(PASSING))] && ok && same {
      HiddenPasses(log, candidate, bundle);
    }
    var closed := Bracketed(log, bundle, between, ok);
    BracketedLegal(log, candidate, bundle, between, ok);
    EmptyBalanced(between, candidate);
    BalancedPair(log, bundle, between, ok);
    BracketedClash(log, candidate, bundle, between, ok);
    CheckedLegal(closed, same, candidate);
    LegalStep(closed, Checked(same), candidate);
    BalancedStep(closed, Checked(same));
    ClashStep(closed, Checked(same));
  }

  /** The hidden suite in its bundle, which is removed whatever happens. */
  method RunHidden(world: World, expected: int, before: seq<StageResult>, bundle: Bundle) returns (exit: Exit)
    requires PassedStages(before, 2) && world.candidate == expected
    requires |world.log| == 5 && world.log[4] == Created(bundle) && Ready(world.log[..4], expected, 2)
    modifies world
    ensures Concluded(exit, world.log, expected, world.faulty) && world.log != []
    ensures exit.Returned? ==> |world.log| > 5
  {
    hide Ready, LegalLog, Balanced, Clash, PassedEvents, FullRun, InfrastructureResult, Topology, StageFromEvidence,
        ValidStage, BlocksAt, EvidenceOf, NamesRefusal, Explained, HiddenExit;
    ghost var log := world.log[..4];
    ghost var between := [];
    var evidence: Option<Evidence> := None;
    var code: Option<Code> := None;
    var interrupted := false;
    var first := CheckIntegrity(world, expected);
    if first.None? {
      interrupted := true;
    } else if !first.value {
      code := Some(IntegrityFailed);
      between := [Checked(false)];
    } else {
      var execution := ExecuteStage(world, HiddenSuite);
      between := [Checked(true), world.log[6]];
      match execution {
        case Broken => interrupted := true;
        case Completed(e) => evidence := Some(e);
        case Refused(c) => code := Some(c);
      }
    }
    assert world.log == log + [Created(bundle)] + between;
    var removal := world.RemoveBundle(bundle);
    assert world.log == Bracketed(log, bundle, between, removal.Done?);
    HiddenEvents(log, expected, bundle, between, removal.Done?, true);
    HiddenEvents(log, expected, bundle, between, removal.Done?, false);
    if interrupted || removal == Raised(Interrupt) {
      return Interrupted;
    }
    var integrity := CheckIntegrity(world, expected);
    if integrity.None? {
      return Interrupted;
    }
    exit := HiddenExit(before, removal.Done?, integrity.value, code, evidence);
    HiddenConcluded(before, log, expected, bundle, between, removal.Done?, integrity.value, code, evidence, world.faulty);
  }

  /** The result once the bundle is gone, or stays, and the candidate was checked again. */
  function HiddenExit(before: seq<StageResult>, removed: bool, same: bool, code: Option<Code>,
      evidence: Option<Evidence>): Exit
    requires PassedStages(before, 2) && (evidence.Some? ==> ValidEvidence(evidence.value))
    requires if code.Some? then evidence.None? && code.value != PrerequisiteFailed else evidence.Some?
  {
    if !removed then InfrastructureResult(before, 2, CleanupFailed, evidence)
    else if !same then InfrastructureResult(before, 2, IntegrityFailed, evidence)
    else if code.Some? then InfrastructureResult(before, 2, code.value, evidence)
    else Conclude(before[2 := StageFromEvidence(HiddenSuite, evidence.value)])
  }

  /** What came of the hidden suite: a changed candidate, a refusal, or evidence. */
  predicate Came(between: seq<Event>, candidate: int, code: Option<Code>, evidence: Option<Evidence>) {
    || (between == [Checked(false)] && code == Some(IntegrityFailed) && evidence.None?)
    || (&& |between| == 2 && between[0] == Checked(true) && between[1].Ran? && between[1].stage == HiddenSuite
        && between[1].candidate == candidate && evidence == EvidenceOf(between[1])
        && if evidence.Some? then code.None?
           else code.Some? && code.value != PrerequisiteFailed && NamesRefusal(code.value, between[1].answer))
  }

  lemma CameIsBetween(between: seq<Event>, candidate: int, code: Option<Code>, evidence: Option<Evidence>)
    requires Came(between, candidate, code, evidence)
    ensures Between(between, candidate)
    ensures evidence == EvidenceBetween(between) && (evidence.Some? ==> ValidEvidence(evidence.value))
    ensures if code.Some? then evidence.None? && code.value != PrerequisiteFailed else evidence.Some? && |between| == 2
    ensures evidence.Some? && evidence.value.completion != Normal <==> AbnormalBetween(between)
  {
    hide NamesRefusal;
  }

  /** The hidden suite's way out is explained by what came. */
  lemma HiddenExitExplained(before: seq<StageResult>, log: seq<Event>, candidate: int, bundle: Bundle,
      between: seq<Event>,
      removed: bool, same: bool, code: Option<Code>, evidence: Option<Evidence>)
    requires PassedStages(before, 2) && |log| == 4 && Came(between, candidate, code, evidence)
    requires if code.Some? then evidence.None? && code.value != PrerequisiteFailed else evidence.Some?
    requires evidence.Some? ==> ValidEvidence(evidence.value)
    ensures var exit := HiddenExit(before, removed, same, code, evidence);
            exit.Returned? ==> Explained(exit.stages, Bracketed(log, bundle, between, removed) + [Checked(same)])
  {
    hide NamesRefusal, ValidEvidence, Topology, ValidStage, InfrastructureResult, StageFromEvidence, Explained,
        Explains, BlocksAt;
    var exit := HiddenExit(before, removed, same, code, evidence);
    if exit.Returned? {
      if code.None? && removed && same {
        var stage := StageFromEvidence(HiddenSuite, evidence.value);
        assert exit.stages == before[2 := stage];
        EvidenceExplains(HiddenSuite, between[1]);
      } else if removed && |between| == 2 {
        FaultExplains(exit.stages[2], between[1], same);
      }
      HiddenExplained(exit, log, bundle, between, removed, same);
    }
  }

  /** And it is a valid result, or the validator's exception where the events clash. */
  lemma HiddenExitValid(before: seq<StageResult>, removed: bool, same: bool, code: Option<Code>,
      evidence: Option<Evidence>)
    requires PassedStages(before, 2) && (evidence.Some? ==> ValidEvidence(evidence.value))
    requires if code.Some? then evidence.None? && code.value !in {PrerequisiteFailed} else evidence.Some?
    ensures var exit := HiddenExit(before, removed, same, code, evidence);
            && !exit.Interrupted?
            && (exit.ValidatorRaised? <==> evidence.Some? && evidence.value.completion != Normal && !(removed && same))
            && (exit.Returned? ==> ValidResult(exit.stages, exit.verdict))
            && (exit.Returned? && exit.verdict == AllPassed ==> removed && same && evidence == Some(PASSING))
  {
    hide Topology, InfrastructureResult, BlocksAt;
    if removed && same && code.None? {
      var stage := StageFromEvidence(HiddenSuite, evidence.value);
      if stage.status == Passed {
        PassedTopology(before[2 := stage]);
      } else {
        StageBlocks(before, 2, stage);
      }
    }
  }

  lemma HiddenConcluded(before: seq<StageResult>, log: seq<Event>, candidate: int, bundle: Bundle, between: seq<Event>,
      removed: bool, same: bool, code: Option<Code>, evidence: Option<Evidence>, faulty: bool)
    requires PassedStages(before, 2) && Ready(log, candidate, 2) && Came(between, candidate, code, evidence)
    requires if code.Some? then evidence.None? && code.value != PrerequisiteFailed else evidence.Some?
    requires evidence.Some? ==> ValidEvidence(evidence.value)
    requires !faulty ==> removed && same && evidence.Some?
    ensures Concluded(HiddenExit(before, removed, same, code, evidence), Bracketed(log, bundle, between, removed) + [Checked(same)], candidate, faulty)
  {
    hide Ready, LegalLog, Balanced, Clash, PassedEvents, FullRun, Explained, ValidResult, Came, Judged, HiddenExit;
    ReadyEvents(log, candidate, 2);
    CameIsBetween(between, candidate, code, evidence);
    HiddenEvents(log, candidate, bundle, between, removed, same);
    HiddenExitValid(before, removed, same, code, evidence);
    HiddenExitExplained(before, log, candidate, bundle, between, removed, same, code, evidence);
    if evidence == Some(PASSING) {
      PassingBetween(between, candidate, code, evidence);
    }
    if !faulty {
      HiddenJudged(before, log, candidate, bundle, between, code, evidence);
    }
  }

  lemma PassingBetween(between: seq<Event>, candidate: int, code: Option<Code>, evidence: Option<Evidence>)
    requires Came(between, candidate, code, evidence) && evidence == Some(PASSING)
    ensures between == [Checked(true), Ran(HiddenSuite, candidate, Done(PASSING))]
  {
    hide NamesRefusal;
  }

  lemma HiddenJudged(before: seq<StageResult>, log: seq<Event>, candidate: int, bundle: Bundle, between: seq<Event>,
      code: Option<Code>, evidence: Option<Evidence>)
    requires PassedStages(before, 2) && Ready(log, candidate, 2) && Came(between, candidate, code, evidence)
    requires evidence.Some? && code.None? && ValidEvidence(evidence.value)
    ensures Judged(HiddenExit(before, true, true, code, evidence), Bracketed(log, bundle, between, true) + [Checked(true)])
  {
    hide LegalLog, Balanced, Clash, PassedEvents, NamesRefusal, Topology, ValidStage, StageFromEvidence;
    ReadyEvents(log, candidate, 2);
    var all := Bracketed(log, bundle, between, true) + [Checked(true)];
    assert log <= all && all[6] == between[1];
    var stage := StageFromEvidence(HiddenSuite, evidence.value);
    if stage.status == Passed {
      PassedTopology(before[2 := stage]);
    } else {
      StageBlocks(before, 2, stage);
    }
    JudgedAtHidden(before, stage, all, candidate);
  }

  /** What the hidden suite's stage says is what came between making the bundle and the last check. */
  lemma HiddenExplained(exit: Exit, log: seq<Event>, bundle: Bundle, between: seq<Event>, ok: bool, same: bool)
    requires |log| == 4
    requires between == [Checked(false)] || (|between| == 2 && between[0] == Checked(true) && between[1].Ran?)
    requires exit.Returned? ==>
               && |exit.stages| == 3 && (BlocksAt(exit.stages, 2) || BlocksOrPasses(exit.stages))
               && (exit.stages[2].status == Infrastructure ==>
                    && exit.stages[2].code.Some?
                    && if !ok then exit.stages[2].code.value == CleanupFailed && exit.stages[2].evidence == EvidenceBetween(between)
                       else if |between| == 1 then exit.stages[2].code.value == IntegrityFailed && exit.stages[2].evidence.None?
                       else Explains(exit.stages[2], between[1], same))
    ensures exit.Returned? ==> Explained(exit.stages, Bracketed(log, bundle, between, ok) + [Checked(same)])
  {
    hide Explains;
    var all := Bracketed(log, bundle, between, ok) + [Checked(same)];
    assert all[4] == Created(bundle) && all[|all| - 2] == Removed(bundle, ok) && all[|all| - 1] == Checked(same);
    assert if |between| == 1 then all[6] == Removed(bundle, ok) else all[6] == between[1];
  }

  /** The visible stages passed. */
  predicate BlocksOrPasses(stages: seq<StageResult>) {
    |stages| == 3 && stages[0].status == Passed && stages[1].status == Passed
  }

  function EvidenceBetween(between: seq<Event>): Option<Evidence> {
    if |between| == 2 && between[1].Ran? then EvidenceOf(between[1]) else None
  }

  /** A result that ends before any test has run. */
  function Refusal(code: Code): (r: Exit)
    requires code != PrerequisiteFailed
    ensures r.Returned? && ValidResult(r.stages, r.verdict) && r.verdict == InfrastructureDiagnostic && |r.stages| == 3 && r.stages[0].code == Some(code)
  {
    InfrastructureResult([NotRunStage(Targeted), NotRunStage(VisibleSuite), NotRunStage(HiddenSuite)], 0, code, None)
  }

  lemma RefusalNames(code: Code, stopped: Option<(Step, Option<Fault>)>)
    requires code != PrerequisiteFailed && NamesStep(code, stopped)
    ensures IsRefusal(Refusal(code)) && RefusedFor(Refusal(code), stopped)
  {
    hide Topology, ValidStage, InfrastructureResult;
  }

  predicate IsRefusal(exit: Exit) {
    match exit
    case Interrupted => true
    case ValidatorRaised => false
    case Returned(stages, verdict) => ValidResult(stages, verdict) && verdict == InfrastructureDiagnostic && |stages| == 3
  }

  /** The steps before the stages: the refusal, or the state of the candidate. */
  method Prepare(world: World, caseId: string) returns (stop: Option<Exit>, expected: int)
    requires world.stopped.None?
    modifies world`faulty, world`stopped
    ensures stop.Some? ==> world.faulty
    ensures stop.Some? ==> RefusedFor(stop.value, world.stopped)
    ensures !world.faulty ==> !old(world.faulty)
    ensures stop.Some? ==> IsRefusal(stop.value)
    ensures stop.None? ==> expected == world.candidate
  {
    hide Refusal, ValidResult;
    expected := 0;
    var request := world.Prepare(Request);
    if request.Raised? {
      var code := if request.fault == StaticPrerequisite then StaticPrerequisiteFailed else InvalidInput;
      RefusalNames(code, world.stopped);
      stop := Some(if request.fault == Interrupt then Interrupted else Refusal(code));
      return;
    }
    var loaded := world.LoadCase(caseId);
    if loaded.Raised? {
      RefusalNames(CaseLoadFailed, world.stopped);
      stop := Some(if loaded.fault == Interrupt then Interrupted else Refusal(CaseLoadFailed));
      return;
    }
    if loaded.value != caseId {
      RefusalNames(CaseMismatch, world.stopped);
      stop := Some(Refusal(CaseMismatch));
      return;
    }
    var workspace := world.Prepare(Workspace);
    if workspace.Raised? {
      RefusalNames(WorkspaceInvalid, world.stopped);
      stop := Some(if workspace.fault == Interrupt then Interrupted else Refusal(WorkspaceInvalid));
      return;
    }
    var tests := world.Prepare(DeclaredTests);
    if tests.Raised? {
      RefusalNames(VisibleTestInvalid, world.stopped);
      stop := Some(if tests.fault == Interrupt then Interrupted else Refusal(VisibleTestInvalid));
      return;
    }
    var state := world.CandidateState();
    if state.Raised? {
      RefusalNames(CandidateInvalid, world.stopped);
      stop := Some(if state.fault == Interrupt then Interrupted else Refusal(CandidateInvalid));
      return;
    }
    stop, expected := None, state.value;
  }

  /** Why a run ended without a bundle: one that stays behind, then a changed candidate, then what was raised. */
  predicate NamesBundle(code: Code, withheld: Option<Fault>, same: bool) {
    match code
    case CleanupFailed => withheld == Some(BundleCleanup)
    case IntegrityFailed => !same && withheld != Some(BundleCleanup)
    case EvaluatorInvalid => same && withheld == Some(EvaluatorInput)
    case BundleFailed => same && withheld !in {Some(BundleCleanup), Some(EvaluatorInput)}
    case _ => false
  }

  /** Only without a bundle does a run return after five events. */
  predicate EndsWithoutBundle(exit: Exit, log: seq<Event>, withheld: Option<Fault>) {
    exit.Returned? && |log| == 5 ==>
      && log[4].Checked? && |exit.stages| == 3 && exit.stages[2].code.Some?
      && NamesBundle(exit.stages[2].code.value, withheld, log[4].same)
  }

  /** The bundle for the hidden suite, or the result without it. */
  method MakeBundle(world: World, expected: int, stages: seq<StageResult>) returns (stop: Option<Exit>, bundle: Bundle)
    requires PassedStages(stages, 2) && Ready(world.log, expected, 2)
    modifies world`log, world`faulty, world`withheld
    ensures stop.Some? ==> world.faulty && Concluded(stop.value, world.log, expected, world.faulty) && world.log != []
    ensures stop.Some? ==> EndsWithoutBundle(stop.value, world.log, world.withheld)
    ensures stop.None? ==> world.log == old(world.log) + [Created(bundle)]
    ensures !world.faulty ==> !old(world.faulty)
  {
    hide LegalLog, Balanced, Clash, PassedEvents, InfrastructureResult, BlocksAt, ValidStage;
    ghost var log := world.log;
    bundle := 0;
    var fault := OtherError;
    var identifier := world.Identifier();
    if identifier.Raised? {
      fault := identifier.fault;
    } else if identifier.value {
      var created := world.CreateBundle();
      if created.Done? && created.value.Some? {
        stop, bundle := None, created.value.value;
        return;
      }
      fault := if created.Raised? then created.fault else OtherError;
    }
    ExtraCheck(log, expected, true);
    ExtraCheck(log, expected, false);
    if fault == Interrupt {
      stop := Some(Interrupted);
      return;
    }
    var same := CheckIntegrity(world, expected);
    if same.None? {
      stop := Some(Interrupted);
      return;
    }
    var code := if fault == BundleCleanup then CleanupFailed
                else if !same.value then IntegrityFailed
                else if fault == EvaluatorInput then EvaluatorInvalid
                else BundleFailed;
    stop := Some(InfrastructureResult(stages, 2, code, None));
    ReadyLength(log, expected);
    BundleExplained(stop.value, log, same.value);
  }

  lemma BundleExplained(exit: Exit, log: seq<Event>, same: bool)
    requires |log| == 4
    requires exit.Returned? ==>
               && |exit.stages| == 3 && BlocksAt(exit.stages, 2) && exit.stages[2].evidence.None? && exit.stages[2].code.Some?
               && var code := exit.stages[2].code.value;
               code == CleanupFailed || if same then code in {EvaluatorInvalid, BundleFailed} else code == IntegrityFailed
    ensures exit.Returned? ==> Explained(exit.stages, log + [Checked(same)])
  {
    hide BlocksAt;
    if exit.Returned? {
      ExplainedAt(exit.stages, 2, log + [Checked(same)]);
    }
  }

  lemma ExtraCheck(log: seq<Event>, candidate: int, same: bool)
    requires Ready(log, candidate, 2)
    ensures Concluded(Interrupted, log, candidate, true)
    ensures Concluded(Interrupted, log + [Checked(same)], candidate, true) && !Clash(log + [Checked(same)])
  {
    hide Legal, Balanced, Clash, LegalLog;
    CheckedLegal(log, same, candidate);
    LegalStep(log, Checked(same), candidate);
    BalancedStep(log, Checked(same));
    ClashStep(log, Checked(same));
    NoAbnormal(log, candidate, 2);
  }

  /** `VerificationService.verify`. */
  method Verify(world: World, caseId: string) returns (exit: Exit)
    requires world.log == [] && world.stopped.None?
    modifies world
    ensures world.log == [] ==> RefusedFor(exit, world.stopped)
    ensures EndsWithoutBundle(exit, world.log, world.withheld)
    ensures Concluded(exit, world.log, old(world.candidate), world.faulty)
  {
    hide Ready, LegalLog, Balanced, Clash, PassedEvents, ValidResult;
    NothingYet(world.candidate);
    EmptyConcludes(world.candidate);
    var stop, expected := Prepare(world, caseId);
    if stop.Some? {
      return stop.value;
    }
    var stages := [NotRunStage(Targeted), NotRunStage(VisibleSuite), NotRunStage(HiddenSuite)];
    stages, stop := RunVisible(world, expected, stages, 0);
    if stop.Some? {
      return stop.value;
    }
    stages, stop := RunVisible(world, expected, stages, 1);
    if stop.Some? {
      return stop.value;
    }
    ghost var log := world.log;
    assert |log| == 4 by {
      ReadyLength(log, expected);
    }
    var bundle;
    stop, bundle := MakeBundle(world, expected, stages);
    if stop.Some? {
      return stop.value;
    }
    assert world.log[..4] == log;
    exit := RunHidden(world, expected, stages, bundle);
  }

  lemma ReadyLength(log: seq<Event>, candidate: int)
    requires Ready(log, candidate, 2)
    ensures |log| == 4
  {
  }

  lemma EmptyConcludes(candidate: int)
    ensures LegalLog([], candidate) && Balanced([]) && !Clash([])
  {
  }
}
