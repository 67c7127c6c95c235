/**
 The result of the patch policy: violations without duplicates in one order, and the limits
 on files and lines (app/agent/policy.py:25-42, 107-174, 919-930, 972-1003).
 */
module PolicyResult {
  import opened Wrappers
  import opened Sorting
  import opened UnifiedDiff
  import opened DiffShape
  import opened StagedTree

  /** A violation by the rank of its code; its message is the constant of the code. */
  datatype Violation = Violation(rank: nat, path: Option<string>, line: Option<nat>)

  const TOO_MANY_FILES := Violation(2, None, None)
  const LINE_CHANGE_LIMIT_EXCEEDED := Violation(3, None, None)
  const MAX_CHANGED_FILES := 3
  const MAX_CHANGED_LINES := 200

  /** `PatchPolicyViolation.validate_safe_constant_content`: paths are not empty, lines count from 1 and need a path. */
  predicate ValidViolation(v: Violation) {
    && (v.path.Some? ==> v.path.value != "")
    && (v.line.Some? ==> v.line.value >= 1 && v.path.Some?)
  }

  function PathKey(v: Violation): string {
    if v.path.None? then "" else v.path.value
  }

  function LineKey(v: Violation): nat {
    if v.line.None? then 0 else v.line.value
  }

  /** `_violation_sort_key`, compared in turn. */
  predicate ViolationLeq(fold: string -> string, a: Violation, b: Violation) {
    if a.rank != b.rank then a.rank < b.rank
    else if fold(PathKey(a)) != fold(PathKey(b)) then StringLeq(fold(PathKey(a)), fold(PathKey(b)))
    else if PathKey(a) != PathKey(b) then StringLeq(PathKey(a), PathKey(b))
    else LineKey(a) <= LineKey(b)
  }

  function ViolationOrder(fold: string -> string): (Violation, Violation) -> bool {
    (a, b) => ViolationLeq(fold, a, b)
  }

  datatype Result = Result(approved: bool, violations: seq<Violation>)

  /** `PatchPolicyResult.validate_result`. */
  predicate ValidResult(fold: string -> string, r: Result) {
    && (r.approved <==> r.violations == [])
    && Sorted(r.violations, ViolationOrder(fold))
    && Apart(r.violations, (a, b) => SameKey(fold, a, b))
  }

  predicate SameKey(fold: string -> string, a: Violation, b: Violation) {
    a.rank == b.rank && PathKey(a) == PathKey(b) && LineKey(a) == LineKey(b)
  }

  /** The values of a dictionary keyed by the whole violation. */
  function Unique(violations: seq<Violation>): (r: seq<Violation>)
    ensures forall v :: v in r <==> v in violations
    ensures forall i, j :: 0 <= i < j < |r| ==> r[i] != r[j]
  {
    if violations == [] then []
    else
      var last := violations[|violations| - 1];
      var rest := Unique(violations[..|violations| - 1]);
      assert forall v :: v in violations <==> v in violations[..|violations| - 1] || v == last;
      if last in rest then rest else rest + [last]
  }

  /** `_result`. */
  function MakeResult(fold: string -> string, violations: seq<Violation>): Result {
    var ordered := Sort(Unique(violations), ViolationOrder(fold));
    Result(ordered == [], ordered)
  }

  lemma ViolationsTotal(fold: string -> string)
    ensures TotalPreorder(ViolationOrder(fold))
  {
    hide StringLeq, PathKey, LineKey;
    var leq := ViolationOrder(fold);
    forall a, b ensures leq(a, b) || leq(b, a) {
      StringTotal(fold(PathKey(a)), fold(PathKey(b)));
      StringTotal(PathKey(a), PathKey(b));
    }
    forall a, b, c | leq(a, b) && leq(b, c) ensures leq(a, c) {
      var x, y, z := PathKey(a), PathKey(b), PathKey(c);
      if a.rank == b.rank == c.rank {
        StringTotal(fold(x), fold(y));
        StringTotal(fold(y), fold(z));
        StringsBetween(fold(x), fold(y), fold(z));
        if fold(x) == fold(y) == fold(z) {
          StringTotal(x, y);
          StringTotal(y, z);
          StringsBetween(x, y, z);
        }
      }
    }
  }

  /** Valid violations with one key are one violation. */
  lemma KeysTellApart(fold: string -> string, a: Violation, b: Violation)
    requires ValidViolation(a) && ValidViolation(b)
    ensures SameKey(fold, a, b) <==> a == b
    ensures ViolationLeq(fold, a, b) && ViolationLeq(fold, b, a) ==> a == b
  {
    StringTotal(fold(PathKey(a)), fold(PathKey(b)));
    StringTotal(PathKey(a), PathKey(b));
  }

  lemma OrderedMembers(fold: string -> string, violations: seq<Violation>)
    ensures var ordered := MakeResult(fold, violations).violations;
            && (forall v :: v in ordered <==> v in violations)
            && (forall i, j :: 0 <= i < j < |ordered| ==> ordered[i] != ordered[j])
            && Sorted(ordered, ViolationOrder(fold))
  {
    hide ViolationLeq;
    var unique := Unique(violations);
    ViolationsTotal(fold);
    SortSorted(unique, ViolationOrder(fold));
    SortMembers(unique, ViolationOrder(fold));
    ApartReordered(unique, Sort(unique, ViolationOrder(fold)), (a, b) => a == b);
  }

  /** By code, then folded path, then path, then line, where none counts as empty or zero. */
  predicate InTurn(fold: string -> string, a: Violation, b: Violation) {
    var p, q := if a.path.Some? then a.path.value else "", if b.path.Some? then b.path.value else "";
    && a.rank <= b.rank
    && (a.rank == b.rank ==> StringLeq(fold(p), fold(q)))
    && (a.rank == b.rank && fold(p) == fold(q) ==> StringLeq(p, q))
    && (a.rank == b.rank && p == q ==> a.line.None? || (b.line.Some? && a.line.value <= b.line.value))
  }

  lemma OrderedInTurn(fold: string -> string, a: Violation, b: Violation)
    requires ViolationLeq(fold, a, b) && ValidViolation(a)
    ensures InTurn(fold, a, b)
  {
    hide StringLeq;
    StringReflexive(fold(PathKey(a)));
    StringReflexive(PathKey(a));
  }

  lemma SortedInTurn(fold: string -> string, ordered: seq<Violation>)
    requires Sorted(ordered, ViolationOrder(fold)) && forall v :: v in ordered ==> ValidViolation(v)
    ensures forall i, j :: 0 <= i < j < |ordered| ==> InTurn(fold, ordered[i], ordered[j])
  {
    hide InTurn, ViolationLeq, ValidViolation;
    forall i, j | 0 <= i < j < |ordered| ensures InTurn(fold, ordered[i], ordered[j]) {
      assert ViolationOrder(fold)(ordered[i], ordered[j]);
      OrderedInTurn(fold, ordered[i], ordered[j]);
    }
  }

  /** Any list of valid violations gives a result its validator accepts, with the same violations. */
  lemma ResultIsValid(fold: string -> string, violations: seq<Violation>)
    requires forall v :: v in violations ==> ValidViolation(v)
    ensures ValidResult(fold, MakeResult(fold, violations))
    ensures forall v :: v in MakeResult(fold, violations).violations <==> v in violations
    ensures MakeResult(fold, violations).approved <==> violations == []
    ensures var ordered := MakeResult(fold, violations).violations;
            forall i, j :: 0 <= i < j < |ordered| ==> InTurn(fold, ordered[i], ordered[j])
  {
    hide ViolationLeq, SameKey, ValidViolation, InTurn;
    OrderedMembers(fold, violations);
    var ordered := MakeResult(fold, violations).violations;
    assert forall v :: v in ordered ==> ValidViolation(v);
    SortedInTurn(fold, ordered);
    forall i, j | 0 <= i < j < |ordered| ensures !SameKey(fold, ordered[i], ordered[j]) {
      assert ordered[i] in ordered && ordered[j] in ordered;
      KeysTellApart(fold, ordered[i], ordered[j]);
    }
    ApprovedMeansNone(fold, violations);
  }

  /** Results are canonical: equal exactly for the same violations, in whatever order and however often. */
  lemma ResultIsCanonical(fold: string -> string, a: seq<Violation>, b: seq<Violation>)
    requires forall v :: v in a || v in b ==> ValidViolation(v)
    ensures MakeResult(fold, a) == MakeResult(fold, b) <==> forall v :: v in a <==> v in b
  {
    hide ViolationLeq, ValidViolation, MakeResult;
    OrderedMembers(fold, a);
    OrderedMembers(fold, b);
    ApprovedIsEmpty(fold, a);
    ApprovedIsEmpty(fold, b);
    var s, t := MakeResult(fold, a).violations, MakeResult(fold, b).violations;
    if forall v :: v in a <==> v in b {
      forall x, y | x in s && y in s && ViolationOrder(fold)(x, y) && ViolationOrder(fold)(y, x) ensures x == y {
        KeysTellApart(fold, x, y);
      }
      SortedSame(s, t, ViolationOrder(fold));
    }
  }

  lemma ApprovedIsEmpty(fold: string -> string, violations: seq<Violation>)
    ensures MakeResult(fold, violations).approved <==> MakeResult(fold, violations).violations == []
  {
  }

  // ---------------------------------------------------------------- limits

  function FileLimit(paths: seq<string>): seq<Violation> {
    if |paths| > MAX_CHANGED_FILES then [TOO_MANY_FILES] else []
  }

  function LineLimit(files: seq<FileDiff>): seq<Violation> {
    if ChangedLineCount(files) > MAX_CHANGED_LINES then [LINE_CHANGE_LIMIT_EXCEEDED] else []
  }

  /** `validate_patch_policy` of a text diff: its two limits, among whatever its other rules find. */
  function Judge(fold: string -> string, paths: seq<string>, files: seq<FileDiff>,
      pathRules: seq<Violation>, secretRules: seq<Violation>, contentRules: seq<Violation>): Result {
    MakeResult(fold, pathRules + FileLimit(paths) + secretRules + LineLimit(files) + contentRules)
  }

  /** Approval is the absence of violations. */
  lemma ApprovedMeansNone(fold: string -> string, violations: seq<Violation>)
    ensures MakeResult(fold, violations).approved <==> violations == []
  {
    hide ViolationLeq;
    OrderedMembers(fold, violations);
    var ordered := MakeResult(fold, violations).violations;
    assert violations != [] ==> violations[0] in ordered;
    assert ordered != [] ==> ordered[0] in violations;
  }

  /** `set(paths)`. */
  function PathSet(paths: seq<string>): set<string> {
    set path | path in paths
  }

  /** The paths of the diff. */
  function ChangedPaths(files: seq<FileDiff>): (r: seq<string>)
    ensures |r| == |files| && forall i :: 0 <= i < |r| ==> r[i] == files[i].path
  {
    if files == [] then [] else [files[0].path] + ChangedPaths(files[1..])
  }

  lemma {:induction false} FewerMembers(paths: seq<string>)
    ensures |PathSet(paths)| <= |paths|
    ensures (forall i, j :: 0 <= i < j < |paths| ==> paths[i] != paths[j]) ==> |PathSet(paths)| == |paths|
  {
    if paths != [] {
      FewerMembers(paths[1..]);
      assert PathSet(paths) == {paths[0]} + PathSet(paths[1..]);
    }
  }

  /** A diff with the paths of a proposal has no more files than the proposal has paths. */
  lemma FilesOfProposal(rules: PathRules, paths: seq<string>, files: seq<FileDiff>)
    requires PathSet(paths) == PathSet(ChangedPaths(files)) && FoldDistinctPaths(rules, files)
    ensures |files| <= |paths|
  {
    hide PathSet, FoldDistinctPaths, ChangedPaths;
    FewerMembers(paths);
    FewerMembers(ChangedPaths(files));
    ChangedPathsDistinct(rules, files);
  }

  lemma ChangedPathsDistinct(rules: PathRules, files: seq<FileDiff>)
    requires FoldDistinctPaths(rules, files)
    ensures forall i, j :: 0 <= i < j < |files| ==> ChangedPaths(files)[i] != ChangedPaths(files)[j]
  {
    forall i, j | 0 <= i < j < |files| ensures files[i].path != files[j].path {
      assert rules.fold(files[i].path) != rules.fold(files[j].path);
    }
  }

  /** A diff is approved exactly when the other rules find nothing, it names at most three paths, and it adds and
      removes at most 200 lines. */
  lemma ApprovedExactly(fold: string -> string, paths: seq<string>, files: seq<FileDiff>,
      pathRules: seq<Violation>, secretRules: seq<Violation>, contentRules: seq<Violation>)
    ensures Judge(fold, paths, files, pathRules, secretRules, contentRules).approved <==>
              && pathRules == [] && secretRules == [] && contentRules == []
              && |paths| <= 3
              && LinesOfKind(files, Added) + LinesOfKind(files, Removed) <= 200
  {
    hide MakeResult;
    ApprovedMeansNone(fold, pathRules + FileLimit(paths) + secretRules + LineLimit(files) + contentRules);
    ChangedIsAddedAndRemoved(files);
  }

  /** The violations of a diff: what the other rules found, more than three paths, more than 200 changed lines. */
  lemma ViolationsExactly(fold: string -> string, paths: seq<string>, files: seq<FileDiff>,
      pathRules: seq<Violation>, secretRules: seq<Violation>, contentRules: seq<Violation>, v: Violation)
    ensures v in Judge(fold, paths, files, pathRules, secretRules, contentRules).violations <==>
              || v in pathRules || v in secretRules || v in contentRules
              || (v == Violation(2, None, None) && |paths| > 3)
              || (v == Violation(3, None, None) && LinesOfKind(files, Added) + LinesOfKind(files, Removed) > 200)
  {
    hide MakeResult, LinesOfKind;
    OrderedMembers(fold, pathRules + FileLimit(paths) + secretRules + LineLimit(files) + contentRules);
    ChangedIsAddedAndRemoved(files);
  }

  /** An approved diff touches at most three files, adds and removes at most 200 lines, and grows no tree by more. */
  lemma ApprovedIsSmall(rules: PathRules, pristine: Tree, paths: seq<string>, files: seq<FileDiff>,
      pathRules: seq<Violation>, secretRules: seq<Violation>, contentRules: seq<Violation>)
    requires Judge(rules.fold, paths, files, pathRules, secretRules, contentRules).approved
    requires PathSet(paths) == PathSet(ChangedPaths(files)) && FoldDistinctPaths(rules, files)
    requires forall file :: file in files ==> Applies(pristine, file) && FileShape(file)
    ensures |files| <= |paths| <= MAX_CHANGED_FILES
    ensures LinesOfKind(files, Added) + LinesOfKind(files, Removed) <= MAX_CHANGED_LINES
    ensures TotalLines(pristine, files, true) <= TotalLines(pristine, files, false) + MAX_CHANGED_LINES
  {
    hide Applies, FileShape, MakeResult, PathSet, FoldDistinctPaths;
    FilesOfProposal(rules, paths, files);
    ApprovedMeansNone(rules.fold, pathRules + FileLimit(paths) + secretRules + LineLimit(files) + contentRules);
    ChangedIsAddedAndRemoved(files);
    DiffConserves(pristine, files);
  }
}
