/**
 The static gate: apply an approved patch to a copy of the prepared repository, check it,
 and publish the copy only if every check passes and nothing moved underneath
 (app/agent/static_checks.py:124-276, 1069-1409). Every call to the filesystem, the
 fingerprinter and the container runner may fail, and the runner may change the
 repository and the copy.
 */
module StaticGate {
  import opened Wrappers
  import opened Sorting
  import opened UnifiedDiff
  import opened DiffShape
  import opened StagedTree

  // ---------------------------------------------------------------- reports

  datatype Check = PatchApply | ChangedFiles | PythonCompile | AstParse | Ruff | Mypy | Bandit

  datatype Status = Passed | Failed | NotApplicable | NotRun | Infrastructure

  datatype Code =
    | InvalidInput | PreparationInvalid | WorkspaceInvalid | FilesystemFailed
    | StaticRunnerFailed | IntegrityFailed | CleanupFailed | PrerequisiteFailed

  datatype CheckResult = CheckResult(check: Check, status: Status, code: Option<Code>)

  datatype Verdict = Approved | CandidateFailed | InfrastructureDiagnostic

  datatype Report = Report(outcome: Verdict, checks: seq<CheckResult>, candidate: Option<string>,
      diagnostic: Option<Code>)

  const CHECKS := [PatchApply, ChangedFiles, PythonCompile, AstParse, Ruff, Mypy, Bandit]

  predicate AnyStatus(checks: seq<CheckResult>, status: Status) {
    exists i :: 0 <= i < |checks| && checks[i].status == status
  }

  /** The order, and what every validator asks of single checks. */
  predicate ChecksOk(checks: seq<CheckResult>) {
    && |checks| == |CHECKS|
    && (forall i :: 0 <= i < |checks| ==> checks[i].check == CHECKS[i])
    && (forall i :: 0 <= i < |checks| ==> (checks[i].code.Some? <==> checks[i].status in {NotRun, Infrastructure}))
    && (forall i :: 0 <= i < 2 ==> checks[i].status != NotApplicable)
    && ((exists i :: 2 <= i < |checks| && checks[i].status == NotApplicable)
        ==> forall i :: 2 <= i < |checks| ==> checks[i].status == NotApplicable)
  }

  /** `StaticValidationResult.validate_outcome`. */
  predicate ValidReport(report: Report) {
    && ChecksOk(report.checks)
    && match report.outcome
       case Approved =>
         && report.candidate.Some? && report.diagnostic.None?
         && (forall i :: 0 <= i < |report.checks| ==> report.checks[i].status in {Passed, NotApplicable})
       case CandidateFailed =>
         && report.candidate.None? && report.diagnostic.None?
         && AnyStatus(report.checks, Failed) && !AnyStatus(report.checks, Infrastructure)
       case InfrastructureDiagnostic =>
         report.candidate.None? && report.diagnostic.Some? && AnyStatus(report.checks, Infrastructure)
  }

  function Infra(check: Check, code: Code): CheckResult {
    CheckResult(check, Infrastructure, Some(code))
  }

  function BlankChecks(): (r: seq<CheckResult>)
    ensures ChecksOk(r) && forall i :: 0 <= i < |r| ==> r[i].status == NotRun
  {
    seq(|CHECKS|, i requires 0 <= i < |CHECKS| => CheckResult(CHECKS[i], NotRun, Some(PrerequisiteFailed)))
  }

  /** The first check with one of these statuses, or the first of all. */
  function FirstWith(checks: seq<CheckResult>, statuses: set<Status>, from: nat): (i: nat)
    requires checks != [] && from <= |checks|
    ensures i < |checks|
    ensures if forall j :: from <= j < |checks| ==> checks[j].status !in statuses then i == 0
            else from <= i && checks[i].status in statuses && forall j :: from <= j < i ==> checks[j].status !in statuses
    decreases |checks| - from
  {
    if from == |checks| then 0
    else if checks[from].status in statuses then from
    else FirstWith(checks, statuses, from + 1)
  }

  /** One check gets a result other than not applicable; a language check only where none is. */
  lemma SetCheck(checks: seq<CheckResult>, i: nat, result: CheckResult)
    requires ChecksOk(checks) && i < |checks| && result.check == checks[i].check
    requires result.code.Some? <==> result.status in {NotRun, Infrastructure}
    requires result.status != NotApplicable && (i < 2 || checks[i].status != NotApplicable)
    ensures ChecksOk(checks[i := result])
  {
  }

  // ---------------------------------------------------------------- the host

  /** How a call can end without a result. */
  datatype Fault = Filesystem | System | Runner | Other | Interrupt

  datatype Outcome<+T> = Done(value: T) | Raised(fault: Fault) {
    predicate IsFailure() {
      Raised?
    }

    function PropagateFailure<U>(): Outcome<U>
      requires Raised?
    {
      Raised(fault)
    }

    function Extract(): T
      requires Done?
    {
      value
    }
  }

  datatype Place = Source | StagingPlace | PublishedPlace

  /** What a snapshot compares: contents, and identities of the entries. */
  datatype Snapshot = Snapshot(tree: Tree, identities: int)

  datatype ToolStatus = ToolPassed | ToolFailed | ToolNotApplicable | ToolInfrastructure

  datatype ToolResult = ToolResult(check: Check, status: ToolStatus)

  /** The repository, the copy and the published tree; any call may fail in any way. */
  class Host {
    var source: Tree
    var staging: Option<Tree>
    var published: Option<Tree>

    /** A directory was made by a call that then failed. */
    ghost var leaked: bool

    /** The copy and the paths the container was given, and its results. */
    ghost var ranOn: Option<Tree>
    ghost var ranPaths: seq<string>
    ghost var tools: Option<seq<ToolResult>>

    /** Some call failed, or gave what it should not: other identities, another fingerprint, changed trees. */
    ghost var faulty: bool

    constructor (source: Tree, staging: Option<Tree>, published: Option<Tree>)
      ensures this.source == source && this.staging == staging && this.published == published
      ensures !leaked && ranOn.None? && tools.None? && !faulty
    {
      this.source, this.staging, this.published := source, staging, published;
      leaked, ranOn, ranPaths, tools, faulty := false, None, [], None, false;
    }

    function At(place: Place): Option<Tree>
      reads this
    {
      match place
      case Source => Some(source)
      case StagingPlace => staging
      case PublishedPlace => published
    }

    /** Nothing is at the two places a call would use. */
    predicate Vacant()
      reads this
    {
      staging.None? && published.None?
    }

    method TakeSnapshot(place: Place) returns (o: Outcome<Snapshot>)
      modifies `faulty
      ensures o.Done? ==> At(place) == Some(o.value.tree)
      ensures faulty <==> old(faulty) || !o.Done? || o.value.identities != 0
    {
      if * {
        var tree := At(place);
        if tree.Some? {
          var identities: int := *;
          faulty := faulty || identities != 0;
          return Done(Snapshot(tree.value, identities));
        }
      }
      var fault: Fault := *;
      o := Raised(fault);
      faulty := true;
    }

    /** A fingerprinter of its own, trusted with nothing. */
    method Fingerprint(ghost expected: string) returns (o: Outcome<string>)
      modifies `faulty
      ensures faulty <==> old(faulty) || o != Done(expected)
    {
      o := *;
      faulty := faulty || o != Done(expected);
    }

    method ValidateRoot() returns (o: Outcome<()>)
      modifies `faulty
      ensures faulty <==> old(faulty) || !o.Done?
    {
      o := *;
      faulty := faulty || !o.Done?;
    }

    /** Whether a new identifier has the form of one. */
    method Identifier() returns (o: Outcome<bool>)
      modifies `faulty
      ensures faulty <==> old(faulty) || o != Done(true)
    {
      o := *;
      faulty := faulty || o != Done(true);
    }

    method MakeStaging() returns (o: Outcome<()>)
      requires Vacant()
      modifies `staging, `leaked, `faulty
      ensures o.Done? ==> staging == Some(map[]) && leaked == old(leaked)
      ensures o.Raised? ==> (leaked <==> old(leaked) || staging.Some?)
      ensures faulty <==> old(faulty) || !o.Done?
    {
      o := *;
      faulty := faulty || !o.Done?;
      if o.Done? {
        staging := Some(map[]);
      } else if * {
        staging := Some(map[]);
        leaked := true;
      }
    }

    method CopySnapshot(snapshot: Snapshot) returns (o: Outcome<()>)
      modifies `staging, `faulty
      ensures o.Done? ==> staging == Some(snapshot.tree)
      ensures faulty <==> old(faulty) || !o.Done?
    {
      o := *;
      faulty := faulty || !o.Done?;
      staging := *;
      if o.Done? {
        staging := Some(snapshot.tree);
      }
    }

    /** The patch over the copy: a conflict, or the patched copy, or any part of it. */
    method PatchStaging(pristine: Tree, files: seq<FileDiff>) returns (o: Outcome<Option<PatchError>>)
      requires staging == Some(pristine) && StagedTree.DistinctPaths(files)
      requires forall file :: file in files ==> NamesFile(file)
      modifies `staging, `faulty
      ensures o.Done? && o.value.None? ==> staging.Some? && Staged(pristine, staging.value, files)
      ensures o.Done? && o.value == Some(PatchConflict) ==> exists file :: file in files && !Applies(pristine, file)
      ensures o.Done? && o.value == Some(PatchError.FilesystemFailed) ==> exists file :: file in files && Hindered(pristine, files, file)
      ensures faulty <==> old(faulty) || !o.Done?
    {
      hide *;
      var copy := new Staging(pristine);
      var error := ApplyPatch(copy, pristine, files);
      staging := Some(copy.tree);
      o := Done(error);
      if * {
        staging := *;
        var fault: Fault := *;
        o := Raised(fault);
      }
      faulty := faulty || !o.Done?;
    }

    /** The container may also write to what it was given. */
    method Execute(paths: seq<string>) returns (o: Outcome<seq<ToolResult>>)
      modifies `source, `staging, `ranOn, `ranPaths, `tools, `faulty
      ensures ranOn == old(staging) && ranPaths == paths
      ensures tools == if o.Done? then Some(o.value) else None
      ensures faulty <==> old(faulty) || !o.Done? || !ToolsComplete(o.value) || source != old(source) || staging != old(staging)
    {
      ranOn, ranPaths := staging, paths;
      o := *;
      tools := if o.Done? then Some(o.value) else None;
      source, staging := *, *;
      faulty := faulty || !o.Done? || !ToolsComplete(o.value) || source != old(source) || staging != old(staging);
    }

    /** A rename; the call may fail after it. */
    method Publish() returns (o: Outcome<()>)
      requires published.None?
      modifies `staging, `published, `faulty
      ensures faulty <==> old(faulty) || !o.Done?
      ensures o.Done? ==> old(staging).Some? && published == old(staging) && staging.None?
      ensures o.Raised? ==> (staging == old(staging) && published.None?) || (staging.None? && published == old(staging))
    {
      var move: bool := *;
      if move && staging.Some? {
        published, staging := staging, None;
        o := *;
      } else {
        var fault: Fault := *;
        o := Raised(fault);
      }
      faulty := faulty || !o.Done?;
    }

    method RemoveTree(place: Place) returns (o: Outcome<()>)
      requires place != Source
      modifies `staging, `published, `faulty
      ensures faulty ==> old(faulty) || !o.Done?
      ensures old(faulty) || !o.Done? ==> faulty
      ensures o.Done? ==> old(At(place)).Some? && At(place).None?
      ensures place == StagingPlace ==> published == old(published)
      ensures place == PublishedPlace ==> staging == old(staging)
      ensures old(At(place)).None? ==> At(place).None?
    {
      o := *;
      if At(place).None? {
        var fault: Fault := *;
        faulty := true;
        return Raised(fault);
      }
      faulty := faulty || !o.Done?;
      var rest: Option<Tree> := *;
      if o.Done? {
        rest := None;
      }
      if place == StagingPlace {
        staging := rest;
      } else {
        published := rest;
      }
    }
  }

  // ---------------------------------------------------------------- requests

  /** `approved`: the values have their types, and policy approved the proposal with no violation. */
  datatype Request = Request(approved: bool, filesChanged: seq<string>, diff: string, fingerprint: string)

  /** What the gate takes from outside: path rules, which names are Python's, and the digest of a snapshot. */
  datatype Rules = Rules(paths: PathRules, isPython: string -> bool, digest: Tree -> Option<string>)

  predicate PathsNormalize(rules: PathRules, paths: seq<string>) {
    && (forall path :: path in paths ==> ValidPath(rules, path))
    && forall i, j :: 0 <= i < j < |paths| ==> rules.fold(paths[i]) != rules.fold(paths[j])
  }

  /** The files of a request the gate goes on with. */
  function RequestedFiles(rules: Rules, request: Request): (r: Option<seq<FileDiff>>)
    ensures r.Some? ==> StagedTree.DistinctPaths(r.value) && forall file :: file in r.value ==> NamesFile(file)
  {
    if !request.approved || !PathsNormalize(rules.paths, request.filesChanged) then None
    else
      match Parse(rules.paths, request.diff)
      case Err(_) => None
      case Ok(parsed) =>
        ParsedPathsDistinct(rules.paths, request.diff);
        if parsed.hasIgnoredContent
          || (set path | path in request.filesChanged) != (set file | file in parsed.files :: file.path)
        then None
        else Some(parsed.files)
  }

  /** Policy approved the proposal, its paths are valid and do not fold together, its diff parses with nothing ignored,
      and the two name the same paths. */
  ghost predicate InOrder(rules: Rules, request: Request) {
    var paths := request.filesChanged;
    && request.approved
    && (forall path :: path in paths ==> ValidPath(rules.paths, path))
    && (forall i, j :: 0 <= i < j < |paths| ==> rules.paths.fold(paths[i]) != rules.paths.fold(paths[j]))
    && match Parse(rules.paths, request.diff)
       case Err(_) => false
       case Ok(parsed) =>
         && !parsed.hasIgnoredContent
         && forall path :: path in paths <==> exists file :: file in parsed.files && file.path == path
  }

  /** The changed-file check accepts the copy. */
  ghost predicate Accepted(rules: Rules, pristine: Tree, copy: Tree, expected: seq<string>) {
    exists order :: Enumerates(order, Changed(pristine, copy)) && ChangedAsExpected(rules.paths.fold, pristine, copy, expected, order)
  }

  /** The changed-file check refuses the copy, in some order of its sets. */
  ghost predicate Refused(rules: Rules, pristine: Tree, copy: Tree, expected: seq<string>) {
    exists order :: Enumerates(order, Changed(pristine, copy)) && !ChangedAsExpected(rules.paths.fold, pristine, copy, expected, order)
  }

  /** The patch left other bytes at this path, in a file that is Python's. */
  predicate ChangedPython(rules: Rules, before: Tree, after: Tree, path: string) {
    path in Changed(before, after) && FileAt(after, path).Some? && rules.isPython(path)
  }

  /** Those of the paths that hold a file and are Python's. */
  function PythonAmong(rules: Rules, expected: seq<string>, tree: Tree): (r: seq<string>)
    ensures forall path :: path in r <==> path in expected && FileAt(tree, path).Some? && rules.isPython(path)
  {
    if expected == [] then []
    else
      var rest := PythonAmong(rules, expected[1..], tree);
      assert expected == [expected[0]] + expected[1..];
      if FileAt(tree, expected[0]).Some? && rules.isPython(expected[0]) then [expected[0]] + rest else rest
  }

  /** What `_changed_python_paths` returns when it refuses nothing. */
  function PythonPaths(rules: Rules, expected: seq<string>, tree: Tree): seq<string> {
    Sort(PythonAmong(rules, expected, tree), PathOrder(rules.paths.fold))
  }

  predicate HasPython(rules: Rules, expected: seq<string>, tree: Tree) {
    PythonPaths(rules, expected, tree) != []
  }

  lemma PythonPathsMembers(rules: Rules, expected: seq<string>, tree: Tree)
    ensures forall path :: path in PythonPaths(rules, expected, tree) <==>
              path in expected && FileAt(tree, path).Some? && rules.isPython(path)
    ensures Sorted(PythonPaths(rules, expected, tree), PathOrder(rules.paths.fold))
  {
    PathsTotal(rules.paths.fold);
    SortSorted(PythonAmong(rules, expected, tree), PathOrder(rules.paths.fold));
    SortMembers(PythonAmong(rules, expected, tree), PathOrder(rules.paths.fold));
  }

  /** Some order of the changed paths, as a set is iterated. */
  method SomeOrder(paths: set<string>) returns (order: seq<string>)
    ensures Enumerates(order, paths)
  {
    order := [];
    var left := paths;
    while left != {}
      invariant left <= paths && Enumerates(order, paths - left)
      decreases |left|
    {
      var path :| path in left;
      left := left - {path};
      order := order + [path];
    }
  }

  lemma PythonOrNone(rules: Rules, expected: seq<string>, tree: Tree)
    ensures HasPython(rules, expected, tree) <==> PythonPaths(rules, expected, tree) != []
  {
  }

  predicate ToolsComplete(results: seq<ToolResult>) {
    && |results| == 5
    && (forall i :: 0 <= i < 5 ==> results[i].check == CHECKS[2 + i])
    && forall i :: 0 <= i < 5 ==> results[i].status != ToolNotApplicable
  }

  /** `_map_tool_result`. */
  function MapTool(result: ToolResult): CheckResult {
    match result.status
    case ToolPassed => CheckResult(result.check, Passed, None)
    case ToolNotApplicable => CheckResult(result.check, NotApplicable, None)
    case ToolInfrastructure => Infra(result.check, StaticRunnerFailed)
    case ToolFailed => CheckResult(result.check, Failed, None)
  }

  function AllTools(status: Status, code: Option<Code>): seq<CheckResult> {
    seq(5, i requires 0 <= i < 5 => CheckResult(CHECKS[2 + i], status, code))
  }

  lemma ToolsAlike(checks: seq<CheckResult>, status: Status, code: Option<Code>)
    requires ChecksOk(checks) && forall i :: 0 <= i < 2 ==> checks[i].status == Passed
    requires status != NotRun && (code.Some? <==> status == Infrastructure)
    ensures ChecksOk(checks[..2] + AllTools(status, code)) && !AnyStatus(checks[..2] + AllTools(status, code), NotRun)
  {
    var all, tools := checks[..2] + AllTools(status, code), AllTools(status, code);
    forall i | 0 <= i < 7 ensures all[i] == if i < 2 then checks[i] else CheckResult(CHECKS[i], status, code) {
      if i >= 2 {
        assert all[i] == tools[i - 2];
      }
    }
  }

  // ---------------------------------------------------------------- what reports show

  /** The candidate failed at this check, and was not checked further. */
  predicate FailedAt(report: Report, i: nat) {
    && report.outcome == CandidateFailed && i < |report.checks| && report.checks[i].status == Failed
    && (forall j :: 0 <= j < i ==> report.checks[j].status == Passed)
    && forall j :: i < j < |report.checks| ==> report.checks[j].status == NotRun
  }

  /** Infrastructure stopped the call at this check, which carries the code; those before passed, none after it ran. */
  predicate BlockedAt(report: Report, i: nat, code: Code) {
    && report.outcome == InfrastructureDiagnostic && report.diagnostic == Some(code)
    && i < |report.checks| && report.checks[i].status == Infrastructure && report.checks[i].code == Some(code)
    && (forall j :: 0 <= j < i ==> report.checks[j].status == Passed)
    && forall j :: i < j < |report.checks| ==> report.checks[j].status == NotRun
  }

  /** The first checks passed, and the others are what the tools found, or not applicable. */
  predicate ShowsTools(checks: seq<CheckResult>, tools: Option<seq<ToolResult>>) {
    && |checks| == 7 && checks[0].status == Passed && checks[1].status == Passed
    && match tools
       case None => forall i :: 2 <= i < 7 ==> checks[i].status == NotApplicable
       case Some(results) => |results| == 5 && forall i :: 2 <= i < 7 ==> checks[i] == MapTool(results[i - 2])
  }

  // ---------------------------------------------------------------- the gate

  class Gate {
    const host: Host
    const rules: Rules
    var checks: seq<CheckResult>
    var cleanup: Option<Place>

    constructor (host: Host, rules: Rules)
      ensures this.host == host && this.rules == rules && checks == BlankChecks() && cleanup.None?
    {
      this.host, this.rules := host, rules;
      checks, cleanup := BlankChecks(), None;
    }

    /** What the call made is at the place it would remove, if anywhere. */
    ghost predicate Owned()
      reads this, host
    {
      && ChecksOk(checks)
      && cleanup != Some(Source)
      && (cleanup == Some(StagingPlace) && host.staging.Some? ==> host.published.None?)
      && (cleanup == Some(PublishedPlace) ==> host.staging.None?)
    }

    /** `_infrastructure_result`. */
    method InfrastructureResult(code: Code) returns (report: Report)
      requires ChecksOk(checks)
      modifies `checks
      ensures ChecksOk(checks) && ValidReport(report)
      ensures report.outcome == InfrastructureDiagnostic && report.diagnostic == Some(code) && report.checks == checks
      ensures AnyStatus(old(checks), Infrastructure) ==> checks == old(checks)
      ensures !AnyStatus(old(checks), Infrastructure) ==>
                var first := FirstWith(old(checks), {NotRun}, 0);
                checks == old(checks)[first := Infra(old(checks)[first].check, code)]
    {
      if forall i :: 0 <= i < |checks| ==> checks[i].status != Infrastructure {
        var first := FirstWith(checks, {NotRun}, 0);
        checks := checks[first := Infra(checks[first].check, code)];
        assert checks[first].status == Infrastructure;
      }
      report := Report(InfrastructureDiagnostic, checks, None, Some(code));
    }

    method CandidateFailedResult() returns (report: Report)
      requires ChecksOk(checks) && AnyStatus(checks, Failed) && !AnyStatus(checks, Infrastructure)
      ensures ValidReport(report) && report.outcome == CandidateFailed && report.checks == checks
    {
      report := Report(CandidateFailed, checks, None, None);
    }

    /** Nothing the call made is left, or the report says that it could not be removed. */
    ghost predicate CleanedUp(report: Report)
      reads host
    {
      host.Vacant() || report.diagnostic == Some(CleanupFailed)
    }

    /** `_cleanup_or_result`. */
    method CleanupOrResult(result: Report) returns (o: Outcome<Report>)
      requires Owned() && ValidReport(result) && result.outcome != Approved
      modifies `checks, host`staging, host`published, host`faulty
      ensures Owned()
      ensures o.Done? ==> ValidReport(o.value) && o.value.outcome != Approved
      ensures o.Done? ==> o.value == result || o.value.diagnostic == Some(CleanupFailed)
      ensures cleanup.Some? && o.Done? ==> CleanedUp(o.value)
      ensures cleanup.None? ==> o == Done(result) && host.staging == old(host.staging) && host.published == old(host.published)
      ensures o.Raised? ==> o.fault == Interrupt
      ensures !host.faulty ==> !old(host.faulty) && o == Done(result)
    {
      hide ValidReport;
      if cleanup.None? {
        return Done(result);
      }
      var removal := host.RemoveTree(cleanup.value);
      if removal.Done? {
        return Done(result);
      }
      if removal.fault == Interrupt {
        return Raised(Interrupt);
      }
      var failing := FirstWith(checks, {NotRun, Passed}, 0);
      SetCheck(checks, failing, Infra(checks[failing].check, CleanupFailed));
      checks := checks[failing := Infra(checks[failing].check, CleanupFailed)];
      var report := InfrastructureResult(CleanupFailed);
      o := Done(report);
    }

    // ---------------------------------------------------------------- the phases

    /** The source still is what it was, and its fingerprint the expected one. */
    method CheckSource(request: Request, pristine: Snapshot) returns (o: Outcome<()>)
      modifies host`faulty
      ensures o.Done? ==> host.source == pristine.tree
      ensures !host.faulty ==> !old(host.faulty) && (host.source == pristine.tree && pristine.identities == 0 ==> o.Done?)
    {
      var snapshot :- host.TakeSnapshot(Source);
      if snapshot != pristine {
        return Raised(Filesystem);
      }
      var fingerprint :- host.Fingerprint(request.fingerprint);
      o := if fingerprint == request.fingerprint then Done(()) else Raised(Filesystem);
    }

    method ReadSource(request: Request) returns (o: Outcome<Snapshot>)
      modifies host`faulty
      ensures !host.faulty ==> !old(host.faulty)
      ensures !host.faulty ==>
                if rules.digest(host.source) == Some(request.fingerprint) then o.Done? && o.value.identities == 0
                else o == Raised(Filesystem)
      ensures o.Done? ==> host.source == o.value.tree && rules.digest(o.value.tree) == Some(request.fingerprint)
    {
      var _ :- host.ValidateRoot();
      var pristine :- host.TakeSnapshot(Source);
      if rules.digest(pristine.tree) != Some(request.fingerprint) {
        return Raised(Filesystem);
      }
      var fingerprint :- host.Fingerprint(request.fingerprint);
      o := if fingerprint == request.fingerprint then Done(pristine) else Raised(Filesystem);
    }

    method MakeCopy(request: Request, pristine: Snapshot) returns (o: Outcome<()>)
      requires Owned() && cleanup.None? && !host.leaked
      modifies `cleanup, host`staging, host`leaked, host`faulty
      ensures Owned() && (cleanup.Some? || host.leaked ==> old(host.Vacant())) && (host.leaked ==> cleanup.None? && o.Raised? && host.staging.Some?)
      ensures cleanup.None? && !host.leaked ==> host.staging == old(host.staging)
      ensures o.Done? ==> cleanup == Some(StagingPlace) && host.staging == Some(pristine.tree)
      ensures o.Done? ==> host.source == pristine.tree && !host.leaked
      ensures !host.faulty ==> !old(host.faulty) && !host.leaked
      ensures !host.faulty && host.source == pristine.tree && pristine.identities == 0 ==>
                if old(host.Vacant()) then o.Done? else o == Raised(Filesystem) && cleanup.None?
    {
      hide ChecksOk;
      var _ :- host.ValidateRoot();
      var valid :- host.Identifier();
      if !valid || !host.Vacant() {
        return Raised(Filesystem);
      }
      var _ :- host.MakeStaging();
      cleanup := Some(StagingPlace);
      var _ :- host.CopySnapshot(pristine);
      o := CheckSource(request, pristine);
    }

    /** The call has its copy and may be stopped: with a report, or by a fault. */
    ghost predicate Working()
      reads this, host
    {
      Owned() && cleanup == Some(StagingPlace)
    }

    /** Stopped with a report that nothing was approved, for this infrastructure code or for the candidate's own
        failure, the copy removed or the failure to remove it reported. */
    ghost predicate Stopped(o: Outcome<Report>, code: Code)
      reads this, host
    {
      && Owned() && cleanup.Some?
      && (o.Done? ==> ValidReport(o.value) && o.value.outcome != Approved && CleanedUp(o.value))
      && (o.Done? ==> o.value.diagnostic in {None, Some(code), Some(CleanupFailed)})
    }

    method StopWith(code: Code) returns (o: Outcome<Report>)
      requires Owned() && cleanup.Some?
      modifies `checks, host`staging, host`published, host`faulty
      ensures Stopped(o, code)
      ensures !host.faulty ==> !old(host.faulty) && o.Done?
      ensures !host.faulty ==> o.value.outcome == InfrastructureDiagnostic && o.value.diagnostic == Some(code)
      ensures !host.faulty && AnyStatus(old(checks), Infrastructure) ==> o.value.checks == old(checks)
    {
      hide ChecksOk, ValidReport;
      var report := InfrastructureResult(code);
      o := CleanupOrResult(report);
    }

    method StopCheck(i: nat, code: Code) returns (o: Outcome<Report>)
      requires Owned() && cleanup.Some? && i < 2
      modifies `checks, host`staging, host`published, host`faulty
      ensures Stopped(o, code)
      ensures !host.faulty ==> !old(host.faulty) && o.Done?
      ensures !host.faulty ==> o.value.outcome == InfrastructureDiagnostic && o.value.diagnostic == Some(code)
      ensures !host.faulty ==> o.value.checks == old(checks)[i := Infra(old(checks)[i].check, code)]
    {
      hide ValidReport;
      SetCheck(checks, i, Infra(checks[i].check, code));
      checks := checks[i := Infra(checks[i].check, code)];
      assert checks[i].status == Infrastructure;
      o := StopWith(code);
    }

    method StopFailed(ghost code: Code) returns (o: Outcome<Report>)
      requires Owned() && cleanup.Some? && AnyStatus(checks, Failed) && !AnyStatus(checks, Infrastructure)
      modifies `checks, host`staging, host`published, host`faulty
      ensures Stopped(o, code)
      ensures !host.faulty ==> !old(host.faulty) && o.Done? && o.value.outcome == CandidateFailed && o.value.checks == old(checks)
    {
      hide ChecksOk, ValidReport, AnyStatus;
      var report := CandidateFailedResult();
      o := CleanupOrResult(report);
    }

    /** No check after this one has run, and those before passed. */
    ghost predicate PassedBefore(n: nat)
      reads this
    {
      ChecksOk(checks) && n <= 2 && forall i :: 0 <= i < |checks| ==> checks[i].status == if i < n then Passed else NotRun
    }

    method Pass(i: nat)
      requires i < 2 && PassedBefore(i)
      modifies `checks
      ensures PassedBefore(i + 1)
    {
      SetCheck(checks, i, CheckResult(checks[i].check, Passed, None));
      checks := checks[i := CheckResult(checks[i].check, Passed, None)];
    }

    method FailCheck(i: nat, ghost code: Code) returns (o: Outcome<Report>)
      requires Working() && i < 2 && PassedBefore(i)
      modifies `checks, host`staging, host`published, host`faulty
      ensures Stopped(o, code)
      ensures !host.faulty ==> !old(host.faulty) && o.Done? && FailedAt(o.value, i)
    {
      hide ValidReport;
      SetCheck(checks, i, CheckResult(checks[i].check, Failed, None));
      checks := checks[i := CheckResult(checks[i].check, Failed, None)];
      assert checks[i].status == Failed;
      o := StopFailed(code);
    }

    method PatchCopy(pristine: Snapshot, files: seq<FileDiff>) returns (stop: Option<Outcome<Report>>)
      requires Working() && PassedBefore(0) && host.staging == Some(pristine.tree) && StagedTree.DistinctPaths(files)
      requires forall file :: file in files ==> NamesFile(file)
      modifies `checks, host`staging, host`published, host`faulty
      ensures stop.Some? ==> Stopped(stop.value, Code.FilesystemFailed)
      ensures stop.None? ==> Working() && PassedBefore(1) && host.staging.Some? && Staged(pristine.tree, host.staging.value, files)
      ensures !host.faulty ==> !old(host.faulty)
      ensures !host.faulty && stop.Some? ==> stop.value.Done? && PatchRefused(pristine.tree, files, stop.value.value)
    {
      hide ChecksOk, ValidReport, Staged, StagedTree.DistinctPaths, Applies, Hindered, CleanedUp;
      var patched := host.PatchStaging(pristine.tree, files);
      if patched == Done(Some(PatchConflict)) {
        var o := FailCheck(0, Code.FilesystemFailed);
        return Some(o);
      }
      if patched == Raised(Filesystem) || (patched.Done? && patched.value.Some?) {
        assert patched.Done? ==> patched.value.value.FilesystemFailed?;
        ghost var before := checks;
        var o := StopCheck(0, Code.FilesystemFailed);
        if !host.faulty {
          BlankBlocked(before, 0, Code.FilesystemFailed, o.value);
        }
        return Some(o);
      }
      if patched.Raised? {
        return Some(Raised(patched.fault));
      }
      Pass(0);
      stop := None;
    }

    lemma ApprovedReport(checks: seq<CheckResult>, candidate: string)
      requires ChecksOk(checks) && forall i :: 0 <= i < |checks| ==> checks[i].status in {Passed, NotApplicable}
      ensures |checks| == 7 && ValidReport(Report(Approved, checks, Some(candidate), None))
    {
    }

    lemma BlankBlocked(checks: seq<CheckResult>, i: nat, code: Code, report: Report)
      requires ChecksOk(checks) && i < 7
      requires forall j :: 0 <= j < |checks| ==> checks[j].status == if j < i then Passed else NotRun
      requires report.outcome == InfrastructureDiagnostic && report.diagnostic == Some(code)
      requires report.checks == checks[i := Infra(checks[i].check, code)]
      ensures BlockedAt(report, i, code)
    {
    }

    method CheckChanges(pristine: Snapshot, expected: seq<string>) returns (stop: Option<Outcome<Report>>,
        candidate: Snapshot)
      requires Working() && PassedBefore(1)
      modifies `checks, host`staging, host`published, host`faulty
      ensures stop.Some? ==> Stopped(stop.value, Code.FilesystemFailed)
      ensures stop.None? ==> Working() && PassedBefore(2) && host.staging == old(host.staging) == Some(candidate.tree)
      ensures stop.None? ==> Accepted(rules, pristine.tree, candidate.tree, expected)
      ensures !host.faulty ==> !old(host.faulty) && (stop.None? ==> candidate.identities == 0)
      ensures !host.faulty && stop.Some? ==>
                && stop.value.Done? && FailedAt(stop.value.value, 1)
                && old(host.staging).Some? && Refused(rules, pristine.tree, old(host.staging).value, expected)
    {
      hide ChecksOk, ValidReport, ChangedAsExpected, CleanedUp;
      candidate := Snapshot(map[], 0);
      var taken := host.TakeSnapshot(StagingPlace);
      if taken == Raised(Filesystem) {
        var o := StopCheck(1, Code.FilesystemFailed);
        stop := Some(o);
        return;
      }
      if taken.Raised? {
        stop := Some(Raised(taken.fault));
        return;
      }
      candidate := taken.value;
      var order := SomeOrder(Changed(pristine.tree, candidate.tree));
      if !ChangedAsExpected(rules.paths.fold, pristine.tree, candidate.tree, expected, order) {
        var o := FailCheck(1, Code.FilesystemFailed);
        stop := Some(o);
        return;
      }
      Pass(1);
      stop := None;
    }

    /** Every check has run. */
    ghost predicate AllRun()
      reads this
    {
      ChecksOk(checks) && !AnyStatus(checks, NotRun)
    }

    method RunTools(candidate: Snapshot, expected: seq<string>) returns (stop: Option<Outcome<Report>>)
      requires Working() && PassedBefore(2) && host.staging == Some(candidate.tree)
      modifies `checks, host`staging, host`published, host`source, host`ranOn, host`ranPaths, host`tools, host`faulty
      ensures stop.Some? ==> Stopped(stop.value, StaticRunnerFailed)
      ensures stop.None? ==> Working() && AllRun() && host.published.None?
      ensures HasPython(rules, expected, candidate.tree) ==> host.ranPaths == PythonPaths(rules, expected, candidate.tree) != []
      ensures host.ranOn == if HasPython(rules, expected, candidate.tree) then Some(candidate.tree) else old(host.ranOn)
      ensures !HasPython(rules, expected, candidate.tree) ==> host.source == old(host.source)
      ensures !host.faulty ==> !old(host.faulty) && stop.None? && host.source == old(host.source) && host.staging == old(host.staging)
      ensures stop.None? ==> ShowsTools(checks, if HasPython(rules, expected, candidate.tree) then host.tools else None)
      ensures stop.None? && HasPython(rules, expected, candidate.tree) ==> host.tools.Some?
      ensures stop.None? ==> forall i :: 2 <= i < |checks| ==> (checks[i].status == NotApplicable <==> !HasPython(rules, expected, candidate.tree))
      ensures !HasPython(rules, expected, candidate.tree) ==> host.tools == old(host.tools)
      ensures !host.faulty && HasPython(rules, expected, candidate.tree) ==> host.tools.Some?
    {
      hide ValidReport, CleanedUp, HasPython, PythonPaths;
      var paths := PythonPaths(rules, expected, candidate.tree);
      assert HasPython(rules, expected, candidate.tree) <==> paths != [] by {
        PythonOrNone(rules, expected, candidate.tree);
      }
      if paths == [] {
        ToolsAlike(checks, NotApplicable, None);
        checks := checks[..2] + AllTools(NotApplicable, None);
        return None;
      }
      var ran := host.Execute(paths);
      if ran.Raised? && ran.fault != Runner {
        return Some(Raised(ran.fault));
      }
      if ran.Raised? || !ToolsComplete(ran.value) {
        ToolsAlike(checks, Infrastructure, Some(StaticRunnerFailed));
        checks := checks[..2] + AllTools(Infrastructure, Some(StaticRunnerFailed));
        var o := StopWith(StaticRunnerFailed);
        return Some(o);
      }
      var results := ran.value;
      ghost var first := checks[..2];
      for index := 2 to 7
        invariant |checks| == 7 && checks[..2] == first
        invariant forall i :: 2 <= i < index ==> checks[i] == MapTool(results[i - 2])
        modifies `checks
      {
        checks := checks[index := MapTool(results[index - 2])];
      }
      forall i | 0 <= i < 7
        ensures checks[i].check == CHECKS[i] && checks[i].status in {Passed, Failed, Infrastructure}
                && (checks[i].code.Some? <==> checks[i].status == Infrastructure)
      {
        if i < 2 {
          assert checks[i] == first[i];
        } else {
          assert checks[i] == MapTool(results[i - 2]);
        }
      }
      stop := None;
    }

    method CheckIntegrity(request: Request, pristine: Snapshot,
        candidate: Snapshot) returns (stop: Option<Outcome<Report>>)
      requires Working() && AllRun() && host.published.None?
      modifies `checks, host`staging, host`published, host`faulty
      ensures stop.Some? ==> Stopped(stop.value, IntegrityFailed)
      ensures stop.None? ==> Working() && AllRun() && host.published.None?
      ensures stop.None? ==> host.staging == Some(candidate.tree) && host.source == pristine.tree && checks == old(checks)
      ensures !host.faulty ==> !old(host.faulty)
      ensures !host.faulty && pristine.identities == 0 && candidate.identities == 0 ==>
                old(host.staging) == Some(candidate.tree) && host.source == pristine.tree ==> stop.None?
    {
      hide ChecksOk, ValidReport, CleanedUp;
      var taken := host.TakeSnapshot(StagingPlace);
      var same := Raised(Filesystem);
      if taken.Raised? {
        same := Raised(taken.fault);
      } else if taken.value == candidate {
        same := CheckSource(request, pristine);
      }
      if same == Raised(Filesystem) {
        var o := StopCheck(1, IntegrityFailed);
        return Some(o);
      }
      stop := if same.Raised? then Some(Raised(same.fault)) else None;
    }

    method Judge() returns (stop: Option<Outcome<Report>>)
      requires Working() && AllRun()
      modifies `checks, host`staging, host`published, host`faulty
      ensures stop.Some? ==> Stopped(stop.value, StaticRunnerFailed)
      ensures stop.None? ==> Working() && host.staging == old(host.staging) && host.published == old(host.published)
      ensures stop.None? ==> forall i :: 0 <= i < |checks| ==> checks[i].status in {Passed, NotApplicable}
      ensures stop.None? ==> checks == old(checks)
      ensures !host.faulty ==> !old(host.faulty) && (stop.Some? ==> stop.value.Done?)
      ensures !host.faulty && stop.Some? ==>
                if AnyStatus(old(checks), Infrastructure)
                then stop.value.value.outcome == InfrastructureDiagnostic && stop.value.value.diagnostic == Some(StaticRunnerFailed)
                  && stop.value.value.checks == old(checks)
                else AnyStatus(old(checks), Failed) && stop.value.value.outcome == CandidateFailed && stop.value.value.checks == old(checks)
    {
      hide ChecksOk, ValidReport, CleanedUp;
      if AnyStatus(checks, Infrastructure) {
        var o := StopWith(StaticRunnerFailed);
        return Some(o);
      }
      if AnyStatus(checks, Failed) {
        var o := StopFailed(StaticRunnerFailed);
        return Some(o);
      }
      stop := None;
    }

    method PublishCopy(request: Request, pristine: Snapshot, candidate: Snapshot) returns (o: Outcome<string>)
      requires Working() && host.staging == Some(candidate.tree) && host.published.None?
      modifies `cleanup, host`staging, host`published, host`faulty
      ensures Owned() && cleanup.Some?
      ensures o.Done? ==> host.staging.None? && host.published == Some(candidate.tree) && host.source == pristine.tree
      ensures o.Done? ==> rules.digest(candidate.tree) == Some(o.value)
      ensures !host.faulty ==> !old(host.faulty)
      ensures !host.faulty && pristine.identities == 0 && candidate.identities == 0 && host.source == pristine.tree ==>
                if rules.digest(candidate.tree).Some? then o.Done? else o == Raised(Filesystem)
    {
      hide ChecksOk;
      var _ :- host.Publish();
      cleanup := Some(PublishedPlace);
      var snapshot :- host.TakeSnapshot(PublishedPlace);
      var digest := rules.digest(snapshot.tree);
      if snapshot != candidate || digest.None? {
        return Raised(Filesystem);
      }
      var _ :- CheckSource(request, pristine);
      o := Done(digest.value);
    }

    // ---------------------------------------------------------------- the whole call

    /** What an approval means: the published tree is the prepared repository exactly patched, nothing else is left,
        the repository is what it was and what was asked for, and the report names the published contents. */
    ghost predicate Published(request: Request, before: Tree, report: Report)
      reads this, host
    {
      && host.staging.None? && host.published.Some? && host.source == before
      && rules.digest(before) == Some(request.fingerprint)
      && report.candidate == rules.digest(host.published.value)
      && Patched(rules, request, before, host.published.value)
    }

    /** What the container was given are the Python paths of the copy it was given. */
    ghost predicate ToolsGiven(request: Request)
      reads this, host
    {
      host.ranOn.Some? ==> host.ranPaths == PythonPaths(rules, request.filesChanged, host.ranOn.value) && host.ranPaths != []
    }

    /** An approved copy with Python paths was given to the container, and one without was not. */
    ghost predicate CheckedBy(request: Request, report: Report)
      reads this, host
    {
      && host.published.Some?
      && host.ranOn == (if HasPython(rules, request.filesChanged, host.published.value) then host.published else None)
      && |report.checks| == 7
      && forall i :: 2 <= i < 7 ==> report.checks[i].status == if host.ranOn.Some? then Passed else NotApplicable
    }

    /** The phases, up to a report or a fault that none of them catches. */
    method Run(request: Request) returns (o: Outcome<Report>)
      requires checks == BlankChecks() && cleanup.None? && !host.leaked && host.ranOn.None? && host.tools.None?
      modifies this, host
      ensures Owned() && (cleanup.Some? || host.leaked ==> old(host.Vacant()))
      ensures o.Done? ==> ValidReport(o.value)
      ensures o.Done? && o.value.outcome == Approved ==> Published(request, old(host.source), o.value)
      ensures o.Done? && o.value.outcome != Approved ==>
                (cleanup.None? && SamePlaces()) || host.leaked || CleanedUp(o.value)
      ensures o.Raised? && cleanup.None? ==> host.leaked || SamePlaces()
      ensures !old(host.Vacant()) ==> SamePlaces()
      ensures host.leaked ==> cleanup.None? && host.staging.Some? && (o.Done? ==> o.value.diagnostic == Some(WorkspaceInvalid))
      ensures host.ranOn.Some? ==> Patched(rules, request, old(host.source), host.ranOn.value)
      ensures ToolsGiven(request) && (o.Done? && o.value.outcome == Approved ==> CheckedBy(request, o.value))
      ensures o.Done? ==> (o.value.diagnostic == Some(InvalidInput) <==> RequestedFiles(rules, request).None?)
      ensures o.Raised? ==> RequestedFiles(rules, request).Some?
      ensures host.ranOn.None? ==> host.source == old(host.source)
      ensures !host.faulty ==> o.Done? && DecidedFrom(rules, request, old(host.source), old(host.Vacant()), host.tools, host.published, o.value)
    {
      hide ChecksOk, ValidReport, Staged, StagedTree.DistinctPaths, HasPython, Accepted, CleanedUp, RequestedFiles,
          DecidedOnCopy;
      var files := RequestedFiles(rules, request);
      if files.None? {
        var report := InfrastructureResult(InvalidInput);
        return Done(report);
      }
      var read := ReadSource(request);
      if read.Raised? {
        if read.fault in {Filesystem, System} {
          var report := InfrastructureResult(PreparationInvalid);
          return Done(report);
        }
        return Raised(read.fault);
      }
      var pristine := read.value;
      var made := MakeCopy(request, pristine);
      if made.Raised? {
        if made.fault in {Filesystem, System} {
          var report := InfrastructureResult(WorkspaceInvalid);
          o := CleanupOrResult(report);
          return;
        }
        return Raised(made.fault);
      }
      o := RunOnCopy(request, files.value, pristine);
    }

    /** The phases that have a copy to work on. */
    method RunOnCopy(request: Request, files: seq<FileDiff>, pristine: Snapshot) returns (o: Outcome<Report>)
      requires Working() && checks == BlankChecks() && host.ranOn.None? && host.tools.None?
      requires !host.faulty ==> pristine.identities == 0
      requires RequestedFiles(rules, request) == Some(files)
      requires host.staging == Some(pristine.tree) && host.source == pristine.tree
      requires rules.digest(pristine.tree) == Some(request.fingerprint)
      modifies `checks, `cleanup, host`staging, host`published, host`source, host`ranOn, host`ranPaths, host`tools, host`faulty
      ensures Owned() && (o.Done? ==> ValidReport(o.value))
      ensures o.Done? && o.value.outcome == Approved ==> Published(request, pristine.tree, o.value)
      ensures o.Done? && o.value.outcome != Approved ==> CleanedUp(o.value)
      ensures o.Raised? ==> cleanup.Some?
      ensures host.ranOn.Some? ==> Patched(rules, request, pristine.tree, host.ranOn.value)
      ensures ToolsGiven(request) && (o.Done? && o.value.outcome == Approved ==> CheckedBy(request, o.value))
      ensures o.Done? ==> o.value.diagnostic != Some(InvalidInput)
      ensures host.ranOn.None? ==> host.source == pristine.tree
      ensures !host.faulty ==> !old(host.faulty) && o.Done?
      ensures !host.faulty ==> DecidedOnCopy(rules, request, pristine.tree, host.tools, host.published, o.value)
    {
      hide ChecksOk, Staged, StagedTree.DistinctPaths, HasPython, Accepted, Refused, CleanedUp, RequestedFiles;
      var stop := PatchCopy(pristine, files);
      if stop.Some? {
        if !host.faulty {
          DecidedRefused(rules, request, pristine.tree, host.tools, host.published, stop.value.value);
        }
        return stop.value;
      }
      ghost var copy := host.staging.value;
      var candidate: Snapshot;
      stop, candidate := CheckChanges(pristine, request.filesChanged);
      if stop.Some? {
        if !host.faulty {
          DecidedUnchanged(rules, request, pristine.tree, copy, host.tools, host.published, stop.value.value);
        }
        return stop.value;
      }
      o := RunOnCandidate(request, pristine, candidate);
    }

    /** The phases once the copy is the candidate. */
    method RunOnCandidate(request: Request, pristine: Snapshot, candidate: Snapshot) returns (o: Outcome<Report>)
      requires Working() && PassedBefore(2) && host.ranOn.None? && host.tools.None? && host.published.None?
      requires !host.faulty ==> pristine.identities == 0 && candidate.identities == 0
      requires Patched(rules, request, pristine.tree, candidate.tree)
      requires host.staging == Some(candidate.tree) && host.source == pristine.tree
      requires rules.digest(pristine.tree) == Some(request.fingerprint)
      modifies `checks, `cleanup, host`staging, host`published, host`source, host`ranOn, host`ranPaths, host`tools, host`faulty
      ensures Owned() && (o.Done? ==> ValidReport(o.value))
      ensures o.Done? && o.value.outcome == Approved ==> Published(request, pristine.tree, o.value)
      ensures o.Done? && o.value.outcome != Approved ==> CleanedUp(o.value)
      ensures o.Raised? ==> cleanup.Some?
      ensures host.ranOn.Some? ==> host.ranOn == Some(candidate.tree)
      ensures ToolsGiven(request) && (o.Done? && o.value.outcome == Approved ==> CheckedBy(request, o.value))
      ensures o.Done? ==> o.value.diagnostic != Some(InvalidInput)
      ensures host.ranOn.None? ==> host.source == pristine.tree
      ensures !host.faulty ==> !old(host.faulty) && o.Done?
      ensures !host.faulty ==> DecidedOnCopy(rules, request, pristine.tree, host.tools, host.published, o.value)
    {
      hide ChecksOk, HasPython, PythonPaths, CleanedUp, Patched, Decided, ValidReport, ShowsTools;
      var stop := RunTools(candidate, request.filesChanged);
      if stop.Some? {
        return stop.value;
      }
      ghost var shown := checks;
      stop := CheckIntegrity(request, pristine, candidate);
      if stop.Some? {
        return stop.value;
      }
      stop := Judge();
      if stop.Some? {
        if !host.faulty {
          DecidedByTools(rules, request, pristine.tree, candidate.tree, shown, host.tools, host.published, stop.value.value);
        }
        return stop.value;
      }
      var done := PublishCopy(request, pristine, candidate);
      if done == Raised(Filesystem) {
        o := StopWith(IntegrityFailed);
        return;
      }
      if done.Raised? {
        return Raised(done.fault);
      }
      cleanup := None;
      ApprovedReport(checks, done.value);
      o := Done(Report(Approved, checks, Some(done.value), None));
      if !host.faulty {
        NoBlocking(checks);
        DecidedByTools(rules, request, pristine.tree, candidate.tree, shown, host.tools, host.published, o.value);
      }
    }

    twostate predicate SamePlaces()
      reads host
    {
      host.staging == old(host.staging) && host.published == old(host.published)
    }

    lemma ToolsMean(request: Request, before: Tree, o: Outcome<Report>)
      requires host.ranOn.Some? ==> Patched(rules, request, before, host.ranOn.value)
      requires ToolsGiven(request)
      requires o.Done? && o.value.outcome == Approved ==> Published(request, before, o.value) && CheckedBy(request, o.value)
      ensures host.ranOn.Some? ==>
                && host.ranPaths != [] && Sorted(host.ranPaths, PathOrder(rules.paths.fold))
                && forall path :: path in host.ranPaths <==> ChangedPython(rules, before, host.ranOn.value, path)
      ensures o.Done? && o.value.outcome == Approved ==>
                && host.published.Some?
                && (if exists path :: ChangedPython(rules, before, host.published.value, path)
                    then host.ranOn == host.published else host.ranOn.None?)
                && |o.value.checks| == 7
                && forall i :: 2 <= i < 7 ==> o.value.checks[i].status == if host.ranOn.Some? then Passed else NotApplicable
    {
      hide Patched, ChangedPython, PythonPaths, PathOrder;
      if host.ranOn.Some? {
        PythonPathsAreChanged(rules, request, before, host.ranOn.value);
      }
      if o.Done? && o.value.outcome == Approved {
        var paths := PythonPaths(rules, request.filesChanged, host.published.value);
        PythonPathsAreChanged(rules, request, before, host.published.value);
        assert paths != [] ==> paths[0] in paths;
      }
    }

    /** `StaticValidationService.validate`. Without faults the report is decided. Whatever the calls do, only an
        interrupt keeps the caller from a report, every report is valid, and one that approves comes with the exactly
        patched repository published. Any other leaves nothing behind or says that cleaning up failed, except exactly
        when a failed call had made the directory. */
    method Validate(request: Request) returns (o: Outcome<Report>)
      requires checks == BlankChecks() && cleanup.None? && !host.leaked && host.ranOn.None? && host.tools.None?
      modifies this, host
      ensures o.Raised? ==> o.fault == Interrupt
      ensures o.Done? ==> ValidReport(o.value)
      ensures o.Done? && o.value.outcome == Approved ==> Published(request, old(host.source), o.value)
      ensures o.Done? && o.value.outcome != Approved ==>
                (host.leaked <==> !(SamePlaces() || o.value.diagnostic == Some(CleanupFailed)))
      ensures !old(host.Vacant()) ==> SamePlaces()
      ensures host.leaked && o.Done? ==> o.value.diagnostic in {Some(WorkspaceInvalid), Some(Code.FilesystemFailed)}
      ensures host.ranOn.Some? ==> Patched(rules, request, old(host.source), host.ranOn.value)
      ensures host.ranOn.Some? ==>
                && host.ranPaths != [] && Sorted(host.ranPaths, PathOrder(rules.paths.fold))
                && forall path :: path in host.ranPaths <==> ChangedPython(rules, old(host.source), host.ranOn.value, path)
      ensures o.Done? && o.value.outcome == Approved ==>
                && host.published.Some?
                && (if exists path :: ChangedPython(rules, old(host.source), host.published.value, path)
                    then host.ranOn == host.published else host.ranOn.None?)
                && forall i :: 2 <= i < 7 ==> o.value.checks[i].status == if host.ranOn.Some? then Passed else NotApplicable
      ensures o.Done? ==> (o.value.diagnostic == Some(InvalidInput) <==> !InOrder(rules, request))
      ensures host.ranOn.None? ==> host.source == old(host.source)
      ensures !host.faulty ==> o.Done? && DecidedFrom(rules, request, old(host.source), old(host.Vacant()), host.tools, host.published, o.value)
    {
      hide ChecksOk, ValidReport, Patched, DecidedFrom, InOrder, ChangedPython, Published, CheckedBy, ToolsGiven;
      o := Run(request);
      RequestExact(rules, request);
      ToolsMean(request, old(host.source), o);
      if o.Raised? {
        if o.fault == Interrupt {
          if cleanup.Some? {
            var _ := host.RemoveTree(cleanup.value);
          }
          return;
        }
        var report := InfrastructureResult(Code.FilesystemFailed);
        o := CleanupOrResult(report);
      }
    }
  }

  /** The tree is the other exactly patched with the requested diff, and the changed-file check accepts it. */
  ghost predicate Patched(rules: Rules, request: Request, before: Tree, after: Tree) {
    var files := RequestedFiles(rules, request);
    files.Some? && Staged(before, after, files.value) && Accepted(rules, before, after, request.filesChanged)
  }

  // ---------------------------------------------------------------- calls without faults

  predicate AnyTool(tools: seq<ToolResult>, status: ToolStatus) {
    exists i :: 0 <= i < |tools| && tools[i].status == status
  }

  /** What a call without faults reports on a request that is in order and a vacant workspace: the first of a file the
      patch does not apply to, a file it leaves unchanged, a broken tool, a failing tool; approval only without any. */
  ghost predicate Decided(rules: Rules, request: Request, before: Tree, tools: Option<seq<ToolResult>>,
      published: Option<Tree>, report: Report)
    requires RequestedFiles(rules, request).Some?
  {
    var files := RequestedFiles(rules, request).value;
    if exists file :: file in files && !Applies(before, file) then FailedAt(report, 0)
    else if exists file :: file in files && !ReallyChanged(before, file) then FailedAt(report, 1)
    else if tools.None? then
      && report.outcome == Approved && ShowsTools(report.checks, None)
      && published.Some? && !HasPython(rules, request.filesChanged, published.value)
    else if AnyTool(tools.value, ToolInfrastructure) then
      && report.outcome == InfrastructureDiagnostic && report.diagnostic == Some(StaticRunnerFailed)
      && ShowsTools(report.checks, tools)
    else if AnyTool(tools.value, ToolFailed) then report.outcome == CandidateFailed && ShowsTools(report.checks, tools)
    else report.outcome == Approved && ShowsTools(report.checks, tools)
  }

  /** The filesystem refused a file of the diff, and had grounds to. */
  ghost predicate DecidedHindered(before: Tree, files: seq<FileDiff>, report: Report) {
    && BlockedAt(report, 0, Code.FilesystemFailed)
    && exists file :: file in files && Hindered(before, files, file)
  }

  /** The patch stopped at a file it does not apply to, or at one the filesystem refuses. */
  ghost predicate PatchRefused(before: Tree, files: seq<FileDiff>, report: Report) {
    || (FailedAt(report, 0) && exists file :: file in files && !Applies(before, file))
    || DecidedHindered(before, files, report)
  }

  /** The patched copy has no digest: a length in it does not fit its prefix. */
  ghost predicate DigestFails(rules: Rules, request: Request, before: Tree) {
    exists copy :: Patched(rules, request, before, copy) && rules.digest(copy).None?
  }

  ghost predicate DecidedOnCopy(rules: Rules, request: Request, before: Tree, tools: Option<seq<ToolResult>>,
      published: Option<Tree>, report: Report)
    requires RequestedFiles(rules, request).Some?
  {
    || Decided(rules, request, before, tools, published, report)
    || DecidedHindered(before, RequestedFiles(rules, request).value, report)
    || (report.diagnostic == Some(IntegrityFailed) && DigestFails(rules, request, before))
  }

  /** What a call without faults reports: each refusal for its own reason only. */
  ghost predicate DecidedFrom(rules: Rules, request: Request, before: Tree, vacant: bool,
      tools: Option<seq<ToolResult>>,
      published: Option<Tree>, report: Report)
  {
    if RequestedFiles(rules, request).None? then BlockedAt(report, 0, InvalidInput)
    else if rules.digest(before) != Some(request.fingerprint) then BlockedAt(report, 0, PreparationInvalid)
    else if !vacant then BlockedAt(report, 0, WorkspaceInvalid)
    else DecidedOnCopy(rules, request, before, tools, published, report)
  }

  /** Files of a staged tree apply. */
  lemma StagedApplies(before: Tree, after: Tree, files: seq<FileDiff>)
    requires Staged(before, after, files)
    ensures forall file :: file in files ==> Applies(before, file)
  {
    hide OthersKept;
    forall file | file in files ensures Applies(before, file) {
      assert FileStaged(before, after, file);
    }
  }

  /** The changed-file check refuses the staged copy only when some file is left unchanged. */
  lemma RefusedMeansUnchanged(rules: Rules, request: Request, before: Tree, after: Tree)
    requires RequestedFiles(rules, request).Some? && Staged(before, after, RequestedFiles(rules, request).value)
    requires Refused(rules, before, after, request.filesChanged)
    ensures exists file :: file in RequestedFiles(rules, request).value && !ReallyChanged(before, file)
  {
    hide RequestedFiles, ChangedAsExpected, Staged, ReallyChanged, FoldDistinct, NamesFile;
    var files := RequestedFiles(rules, request).value;
    RequestedPaths(rules, request);
    NamesAgree(files);
    var order :| Enumerates(order, Changed(before, after))
      && !ChangedAsExpected(rules.paths.fold, before, after, request.filesChanged, order);
    CheckAcceptsRealChanges(rules.paths.fold, before, after, files, request.filesChanged, order);
  }

  lemma NamesAgree(files: seq<FileDiff>)
    requires forall file :: file in files ==> NamesFile(file)
    ensures forall file :: file in files ==> file.oldPath.Some? || file.newPath.Some?
  {
  }

  lemma DecidedRefused(rules: Rules, request: Request, before: Tree, tools: Option<seq<ToolResult>>,
      published: Option<Tree>, report: Report)
    requires RequestedFiles(rules, request).Some?
    requires PatchRefused(before, RequestedFiles(rules, request).value, report)
    ensures DecidedOnCopy(rules, request, before, tools, published, report)
  {
    hide Hindered, Applies, RequestedFiles;
  }

  lemma DecidedUnchanged(rules: Rules, request: Request, before: Tree, copy: Tree, tools: Option<seq<ToolResult>>,
      published: Option<Tree>, report: Report)
    requires RequestedFiles(rules, request).Some? && FailedAt(report, 1)
    requires Staged(before, copy, RequestedFiles(rules, request).value)
    requires Refused(rules, before, copy, request.filesChanged)
    ensures Decided(rules, request, before, tools, published, report)
  {
    hide RequestedFiles, Staged, Refused, Applies, ReallyChanged;
    StagedApplies(before, copy, RequestedFiles(rules, request).value);
    RefusedMeansUnchanged(rules, request, before, copy);
  }

  /** The tools' statuses are those of the checks. */
  lemma ToolsShown(checks: seq<CheckResult>, results: seq<ToolResult>)
    requires ShowsTools(checks, Some(results))
    ensures AnyStatus(checks, Infrastructure) <==> AnyTool(results, ToolInfrastructure)
    ensures AnyStatus(checks, Failed) <==> AnyTool(results, ToolFailed)
  {
    forall i | 0 <= i < 5 ensures checks[2 + i] == MapTool(results[i]) {
      assert checks[2 + i] == MapTool(results[2 + i - 2]);
    }
    if i :| 0 <= i < 5 && results[i].status == ToolInfrastructure {
      assert checks[2 + i].status == Infrastructure;
    }
    if i :| 0 <= i < 5 && results[i].status == ToolFailed {
      assert checks[2 + i].status == Failed;
    }
  }

  lemma NoBlocking(checks: seq<CheckResult>)
    requires forall i :: 0 <= i < |checks| ==> checks[i].status in {Passed, NotApplicable}
    ensures !AnyStatus(checks, Infrastructure) && !AnyStatus(checks, Failed)
  {
  }

  lemma NoToolsShown(checks: seq<CheckResult>)
    requires ShowsTools(checks, None)
    ensures !AnyStatus(checks, Infrastructure) && !AnyStatus(checks, Failed)
  {
  }

  /** The report once the copy has passed its own checks, by what the tools showed. */
  predicate JudgedByTools(checks: seq<CheckResult>, report: Report) {
    if AnyStatus(checks, Infrastructure) then
      report.outcome == InfrastructureDiagnostic && report.diagnostic == Some(StaticRunnerFailed) && report.checks == checks
    else if AnyStatus(checks, Failed) then report.outcome == CandidateFailed && report.checks == checks
    else report.outcome == Approved && report.checks == checks
  }

  lemma DecidedByTools(rules: Rules, request: Request, before: Tree, copy: Tree, checks: seq<CheckResult>,
      tools: Option<seq<ToolResult>>, published: Option<Tree>, report: Report)
    requires Patched(rules, request, before, copy) && ShowsTools(checks, tools)
    requires tools.Some? <==> HasPython(rules, request.filesChanged, copy)
    requires JudgedByTools(checks, report) && (report.outcome == Approved ==> published == Some(copy))
    ensures Decided(rules, request, before, tools, published, report)
  {
    hide RequestedFiles, Staged, Accepted, Applies, ReallyChanged, ShowsTools, AnyStatus, AnyTool, HasPython;
    StagedApplies(before, copy, RequestedFiles(rules, request).value);
    PatchedChangesItsFiles(rules, request, before, copy);
    if tools.Some? {
      ToolsShown(checks, tools.value);
    } else {
      NoToolsShown(checks);
    }
  }

  /** The paths a request names are those of its files, apart in any case. */
  lemma RequestedPaths(rules: Rules, request: Request)
    requires RequestedFiles(rules, request).Some?
    ensures var files := RequestedFiles(rules, request).value;
            && FoldDistinct(rules.paths.fold, request.filesChanged)
            && (forall file :: file in files ==> NamesFile(file))
            && (forall path :: path in request.filesChanged <==> exists file :: file in files && file.path == path)
  {
    var expected, files := request.filesChanged, RequestedFiles(rules, request).value;
    ParsedPathsDistinct(rules.paths, request.diff);
    forall p, q | p in expected && q in expected && rules.paths.fold(p) == rules.paths.fold(q) ensures p == q {
      var i :| 0 <= i < |expected| && expected[i] == p;
      var j :| 0 <= j < |expected| && expected[j] == q;
    }
    var named := set file | file in files :: file.path;
    assert named == set path | path in expected;
    forall path ensures path in expected <==> exists file :: file in files && file.path == path {
      assert path in expected <==> path in named;
    }
  }

  /** The gate goes on with a request exactly when it is in order. */
  lemma RequestExact(rules: Rules, request: Request)
    ensures RequestedFiles(rules, request).Some? <==> InOrder(rules, request)
  {
    hide Parse, ValidPath;
    if Parse(rules.paths, request.diff).Ok? {
      var files := Parse(rules.paths, request.diff).value.files;
      var named, asked := set file | file in files :: file.path, set path | path in request.filesChanged;
      assert forall path :: path in named <==> exists file :: file in files && file.path == path;
      assert forall path :: path in asked <==> path in request.filesChanged;
    }
  }

  /** What the tools are given are the Python files among what the patch changed. */
  lemma PythonPathsAreChanged(rules: Rules, request: Request, before: Tree, after: Tree)
    requires Patched(rules, request, before, after)
    ensures forall path :: path in PythonPaths(rules, request.filesChanged, after) <==> ChangedPython(rules, before, after, path)
    ensures Sorted(PythonPaths(rules, request.filesChanged, after), PathOrder(rules.paths.fold))
  {
    hide RequestedFiles, Accepted, Staged, ReallyChanged, PythonPaths, Patched;
    PatchedChangesItsFiles(rules, request, before, after);
    PatchedExpected(rules, request, before, after);
    PythonPathsMembers(rules, request.filesChanged, after);
  }

  lemma PatchedExpected(rules: Rules, request: Request, before: Tree, after: Tree)
    requires Patched(rules, request, before, after)
    ensures forall path :: path in request.filesChanged <==> path in Changed(before, after)
  {
    hide RequestedFiles, FoldDistinct, Directories;
    PatchedChangesItsFiles(rules, request, before, after);
    var order :| Enumerates(order, Changed(before, after))
      && ChangedAsExpected(rules.paths.fold, before, after, request.filesChanged, order);
    forall path | path in request.filesChanged ensures path in Changed(before, after) {
      LastWithMember(order, rules.paths.fold, rules.paths.fold(path));
    }
  }

  /** An approved tree differs from the repository in every file of the diff, and in no other. */
  lemma PatchedChangesItsFiles(rules: Rules, request: Request, before: Tree, after: Tree)
    requires Patched(rules, request, before, after)
    ensures RequestedFiles(rules, request).Some?
    ensures forall file :: file in RequestedFiles(rules, request).value ==> ReallyChanged(before, file)
    ensures forall path :: FileAt(after, path) != FileAt(before, path) ==> path in request.filesChanged
  {
    hide RequestedFiles, ChangedAsExpected, FileStaged, ReallyChanged, FoldDistinct;
    var files := RequestedFiles(rules, request).value;
    RequestedPaths(rules, request);
    var order :| Enumerates(order, Changed(before, after))
      && ChangedAsExpected(rules.paths.fold, before, after, request.filesChanged, order);
    CheckAcceptsRealChanges(rules.paths.fold, before, after, files, request.filesChanged, order);
    forall path | FileAt(after, path) != FileAt(before, path) ensures path in request.filesChanged {
      assert exists file :: file in files && file.path == path;
    }
  }
}
