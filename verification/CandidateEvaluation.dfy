/**
 The deterministic evaluation of a verified candidate: its paths in one order, its added and
 removed lines and its functional status (app/evaluation/deterministic/candidate.py:81-113, 160-205).
 */
module CandidateEvaluation {
  import opened Wrappers
  import opened Sorting
  import opened UnifiedDiff
  import opened DiffShape
  import opened StagedTree
  import G = StaticGate
  import RunGraph
  import V = Verification

  const MAX_LINE_COUNT := 0x7fff_ffff_ffff_ffff

  datatype Evaluated = Evaluated(files: seq<string>, added: nat, removed: nat, status: RunGraph.FunctionalStatus)

  function Paths(files: seq<FileDiff>): (r: seq<string>)
    ensures |r| == |files| && forall i :: 0 <= i < |r| ==> r[i] == files[i].path
  {
    seq(|files|, i requires 0 <= i < |files| => files[i].path)
  }

  /** `CandidateEvaluationResult.validate_files`. */
  predicate ValidFiles(rules: PathRules, files: seq<string>) {
    G.PathsNormalize(rules, files) && Sorted(files, PathOrder(rules.fold))
  }

  /** `evaluate_candidate`: none when the input is refused. */
  function Evaluate(rules: PathRules, filesChanged: seq<string>, diff: string, verdict: V.Verdict): Option<Evaluated> {
    match Parse(rules, diff)
    case Err(_) => None
    case Ok(parsed) =>
      var paths := Paths(parsed.files);
      var added, removed := LinesOfKind(parsed.files, Added), LinesOfKind(parsed.files, Removed);
      if parsed.hasIgnoredContent
        || !G.PathsNormalize(rules, filesChanged) || !G.PathsNormalize(rules, paths)
        || |filesChanged| != |paths| || (set path | path in filesChanged) != (set path | path in paths)
        || added > MAX_LINE_COUNT || removed > MAX_LINE_COUNT
      then None
      else Some(Evaluated(Sort(paths, PathOrder(rules.fold)), added, removed, RunGraph.StatusOf(verdict)))
  }

  lemma OrderedPaths(rules: PathRules, paths: seq<string>)
    requires G.PathsNormalize(rules, paths)
    ensures ValidFiles(rules, Sort(paths, PathOrder(rules.fold)))
    ensures forall path :: path in Sort(paths, PathOrder(rules.fold)) <==> path in paths
  {
    hide PathLeq, ValidPath;
    PathsTotal(rules.fold);
    SortSorted(paths, PathOrder(rules.fold));
    SortMembers(paths, PathOrder(rules.fold));
    ApartReordered(paths, Sort(paths, PathOrder(rules.fold)), (a, b) => rules.fold(a) == rules.fold(b));
  }

  /** An evaluation passes its validator, names the proposal's paths, and counts every changed line as added or removed. */
  lemma EvaluationIsValid(rules: PathRules, filesChanged: seq<string>, diff: string, verdict: V.Verdict)
    requires Evaluate(rules, filesChanged, diff, verdict).Some?
    ensures var e := Evaluate(rules, filesChanged, diff, verdict).value;
            && ValidFiles(rules, e.files)
            && (forall path :: path in e.files <==> path in filesChanged)
            && Parse(rules, diff).Ok? && e.added + e.removed == ChangedLineCount(Parse(rules, diff).value.files)
            && (e.status == RunGraph.FunctionalPassed <==> verdict == V.AllPassed)
            && (e.status == RunGraph.FunctionalFailed <==> verdict == V.CandidateFailed)
  {
    hide Parse, ValidFiles, G.PathsNormalize;
    var files := Parse(rules, diff).value.files;
    OrderedPaths(rules, Paths(files));
    ChangedIsAddedAndRemoved(files);
    SameSets(filesChanged, Paths(files));
  }

  /** An evaluation is refused only for a diff that does not parse or has ignored content, for paths of the proposal that
      are invalid, fold together or are not those of the diff, and for counts beyond 63 bits. */
  lemma EvaluationAccepts(rules: PathRules, filesChanged: seq<string>, diff: string, verdict: V.Verdict)
    ensures Evaluate(rules, filesChanged, diff, verdict).Some? <==>
              && Parse(rules, diff).Ok? && !Parse(rules, diff).value.hasIgnoredContent
              && (forall path :: path in filesChanged ==> ValidPath(rules, path))
              && (forall i, j :: 0 <= i < j < |filesChanged| ==> rules.fold(filesChanged[i]) != rules.fold(filesChanged[j]))
              && (forall path :: path in filesChanged <==> exists file :: file in Parse(rules, diff).value.files && file.path == path)
              && LinesOfKind(Parse(rules, diff).value.files, Added) <= 0x7fff_ffff_ffff_ffff
              && LinesOfKind(Parse(rules, diff).value.files, Removed) <= 0x7fff_ffff_ffff_ffff
  {
    hide Parse, ValidPath, LinesOfKind;
    if Parse(rules, diff).Ok? {
      var files := Parse(rules, diff).value.files;
      ParsedPathsNormalize(rules, diff);
      PathsOfFiles(files);
      var s, t := set path | path in filesChanged, set path | path in Paths(files);
      if s == t {
        SameSets(filesChanged, Paths(files));
        if G.PathsNormalize(rules, filesChanged) {
          SameLength(rules, filesChanged, Paths(files));
        }
      }
      if forall path :: path in filesChanged <==> exists file :: file in files && file.path == path {
        assert s == t;
      }
    }
  }

  lemma PathsOfFiles(files: seq<FileDiff>)
    ensures forall path :: path in Paths(files) <==> exists file :: file in files && file.path == path
  {
    forall file | file in files ensures file.path in Paths(files) {
      var i :| 0 <= i < |files| && files[i] == file;
      assert Paths(files)[i] == file.path;
    }
  }

  lemma ParsedPathsNormalize(rules: PathRules, diff: string)
    requires Parse(rules, diff).Ok?
    ensures G.PathsNormalize(rules, Paths(Parse(rules, diff).value.files))
  {
    hide Parse, ValidPath, MarkedLines, HunkNumbersOk;
    ParsedHeads(rules, diff);
    ParsedPathsDistinct(rules, diff);
    var files := Parse(rules, diff).value.files;
    forall i | 0 <= i < |files| ensures ValidPath(rules, files[i].path) {
      assert HeadOk(rules, files[i]);
    }
  }

  /** Paths that do not fold together and have the same members are as many. */
  lemma SameLength(rules: PathRules, a: seq<string>, b: seq<string>)
    requires G.PathsNormalize(rules, a) && G.PathsNormalize(rules, b) && forall x :: x in a <==> x in b
    ensures |a| == |b|
  {
    hide ValidPath;
    DistinctSize(a);
    DistinctSize(b);
    assert (set x | x in a) == (set x | x in b);
  }

  lemma {:induction false} DistinctSize(a: seq<string>)
    requires forall i, j :: 0 <= i < j < |a| ==> a[i] != a[j]
    ensures |set x | x in a| == |a|
  {
    if a != [] {
      DistinctSize(a[1..]);
      assert (set x | x in a) == {a[0]} + (set x | x in a[1..]);
    }
  }

  /** Where the diff applies, what an evaluation counts as added less what it counts as removed is what the
      files gain in lines. */
  lemma EvaluationBalances(rules: PathRules, pristine: Tree, filesChanged: seq<string>, diff: string,
      verdict: V.Verdict)
    requires Evaluate(rules, filesChanged, diff, verdict).Some?
    requires forall file :: file in Parse(rules, diff).value.files ==> Applies(pristine, file)
    ensures var e, files := Evaluate(rules, filesChanged, diff, verdict).value, Parse(rules, diff).value.files;
            e.added - e.removed == TotalLines(pristine, files, true) - TotalLines(pristine, files, false)
  {
    hide Parse, Applies, FileShape, G.PathsNormalize;
    ParsedShape(rules, diff);
    DiffConserves(pristine, Parse(rules, diff).value.files);
  }

  lemma SameSets(a: seq<string>, b: seq<string>)
    requires (set x | x in a) == (set x | x in b)
    ensures forall x :: x in a <==> x in b
  {
    var s, t := set x | x in a, set x | x in b;
    assert s == t;
    forall x ensures x in a <==> x in b {
      assert x in a <==> x in s;
      assert x in b <==> x in t;
    }
  }

  /** The order of the paths does not depend on the order of the proposal or of the diff. */
  lemma EvaluationIgnoresOrder(rules: PathRules, filesChanged: seq<string>, diff: string, otherChanged: seq<string>,
      otherDiff: string, verdict: V.Verdict)
    requires Evaluate(rules, filesChanged, diff, verdict).Some? && Evaluate(rules, otherChanged, otherDiff, verdict).Some?
    requires forall path :: path in filesChanged <==> path in otherChanged
    ensures Evaluate(rules, filesChanged, diff, verdict).value.files == Evaluate(rules, otherChanged, otherDiff, verdict).value.files
  {
    hide Parse, PathLeq, Evaluate, ValidPath;
    EvaluationIsValid(rules, filesChanged, diff, verdict);
    EvaluationIsValid(rules, otherChanged, otherDiff, verdict);
    var s := Evaluate(rules, filesChanged, diff, verdict).value.files;
    var t := Evaluate(rules, otherChanged, otherDiff, verdict).value.files;
    forall x, y | x in s && y in s && PathOrder(rules.fold)(x, y) && PathOrder(rules.fold)(y, x) ensures x == y {
      PathsAntisymmetric(rules.fold, x, y);
    }
    SortedSame(s, t, PathOrder(rules.fold));
  }
}
