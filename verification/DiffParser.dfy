/**
 The one-pass reader as it is written: a loop over the lines that counts two
 counters down and grows mutable builders (app/agent/patches.py:85-143, 250-357).
 */
module DiffParser {
  import opened Wrappers
  import opened TextLines
  import opened UnifiedDiff
  import opened DiffGrammar

  class HunkBuilder {
    const oldStart: nat
    const oldCount: nat
    const newStart: nat
    const newCount: nat
    var lines: seq<DiffLine>

    constructor (hunk: Hunk)
      ensures Freeze() == hunk.(lines := [])
    {
      oldStart, oldCount, newStart, newCount := hunk.oldStart, hunk.oldCount, hunk.newStart, hunk.newCount;
      lines := [];
    }

    function Freeze(): Hunk
      reads this
    {
      Hunk(oldStart, oldCount, newStart, newCount, lines)
    }
  }

  class FileBuilder {
    const path: string
    const oldPath: Option<string>
    const newPath: Option<string>
    var lines: seq<DiffLine>
    var hunks: seq<HunkBuilder>
    var hasHunk: bool
    var oldNoNewline: bool
    var newNoNewline: bool
    var oldNoNewlineLine: Option<nat>
    var newNoNewlineLine: Option<nat>
    ghost var Frozen: FileDiff
    ghost var Repr: set<object>

    /** `Frozen` is what freezing the builder gives. */
    ghost predicate Valid()
      reads this, Repr
      ensures Valid() ==> this in Repr
    {
      && this in Repr
      && hasHunk == (hunks != [])
      && (forall i :: 0 <= i < |hunks| ==> hunks[i] in Repr)
      && (forall i, j :: 0 <= i < j < |hunks| ==> hunks[i] != hunks[j])
      && |Frozen.hunks| == |hunks|
      && (forall i :: 0 <= i < |hunks| ==> Frozen.hunks[i] == hunks[i].Freeze())
      && Frozen == FileDiff(path, oldPath, newPath, lines, Frozen.hunks,
                            oldNoNewline, newNoNewline, oldNoNewlineLine, newNoNewlineLine)
    }

    constructor (file: FileDiff)
      requires file.lines == [] && file.hunks == [] && !file.oldNoNewline && !file.newNoNewline
      requires file.oldNoNewlineLine.None? && file.newNoNewlineLine.None?
      ensures Valid() && fresh(Repr) && Frozen == file
    {
      path, oldPath, newPath := file.path, file.oldPath, file.newPath;
      lines, hunks, hasHunk := [], [], false;
      oldNoNewline, newNoNewline, oldNoNewlineLine, newNoNewlineLine := false, false, None, None;
      Frozen, Repr := file, {this};
    }

    /** `freeze`: an immutable copy. */
    method Freeze() returns (file: FileDiff)
      requires Valid()
      ensures file == Frozen
    {
      var frozen: seq<Hunk> := [];
      for i := 0 to |hunks|
        invariant frozen == Frozen.hunks[..i]
      {
        frozen := frozen + [hunks[i].Freeze()];
      }
      file := FileDiff(path, oldPath, newPath, lines, frozen, oldNoNewline, newNoNewline, oldNoNewlineLine, newNoNewlineLine);
    }

    method Append(hunk: HunkBuilder, line: DiffLine)
      requires Valid() && hunks != [] && hunk == hunks[|hunks| - 1]
      modifies this`lines, this`Frozen, hunk`lines
      ensures Valid() && Frozen == AppendLine(old(Frozen), line)
    {
      lines := lines + [line];
      hunk.lines := hunk.lines + [line];
      Frozen := AppendLine(Frozen, line);
    }

    method AddHunk(hunk: HunkBuilder)
      requires Valid() && hunk !in hunks && hunk !in Repr
      modifies this`hunks, this`hasHunk, this`Frozen, this`Repr
      ensures Valid() && hunks == old(hunks) + [hunk] && Repr == old(Repr) + {hunk}
      ensures Frozen == AppendHunk(old(Frozen), hunk.Freeze())
    {
      hasHunk := true;
      hunks := hunks + [hunk];
      Repr := Repr + {hunk};
      Frozen := AppendHunk(Frozen, hunk.Freeze());
    }

    /** `_record_no_newline_marker`. */
    method RecordNoNewlineMarker() returns (error: Option<DiffError>)
      requires Valid()
      modifies this`oldNoNewline, this`newNoNewline, this`oldNoNewlineLine, this`newNoNewlineLine, this`Frozen
      ensures Valid()
      ensures match RecordMarker(old(Frozen))
              case Ok(file) => error.None? && Frozen == file
              case Err(e) => error == Some(e) && Frozen == old(Frozen)
    {
      if lines == [] {
        return Some(MisplacedMarker);
      }
      var last := lines[|lines| - 1];
      if (last.OnOldSide() && oldNoNewline) || (last.OnNewSide() && newNoNewline) {
        return Some(RepeatedMarker);
      }
      if last.OnOldSide() {
        oldNoNewline, oldNoNewlineLine := true, last.oldLine;
      }
      if last.OnNewSide() {
        newNoNewline, newNoNewlineLine := true, last.newLine;
      }
      Frozen := RecordMarker(Frozen).value;
      error := None;
    }
  }

  /** Builders that are finished: they hold `frozen` and live in `region`. */
  ghost predicate Finished(files: seq<FileBuilder>, frozen: seq<FileDiff>, region: set<object>)
    reads region
  {
    && |files| == |frozen|
    && forall i :: 0 <= i < |files| ==>
         files[i] in region && files[i].Repr <= region && files[i].Valid() && files[i].Frozen == frozen[i]
  }

  /**
   The builders hold the reader's files; the current one shares nothing with the
   finished ones, and lines of an open hunk go to its last hunk.
   */
  ghost predicate Represents(files: seq<FileBuilder>, current: FileBuilder?, hunk: HunkBuilder?,
      region: set<object>, s: Reader)
    reads region, current, if current == null then {} else current.Repr
  {
    && s.Valid()
    && if current == null then files == [] && s.files == []
       else
         && files != [] && files[|files| - 1] == current
         && s.files != []
         && Finished(files[..|files| - 1], s.files[..|s.files| - 1], region)
         && current.Valid() && current.Frozen == s.Current()
         && current.Repr !! region
         && (s.counters.Some? ==> hunk == current.hunks[|current.hunks| - 1])
  }

  lemma BuilderHoldsFile(files: seq<FileBuilder>, current: FileBuilder, hunk: HunkBuilder?, region: set<object>,
                         s: Reader, i: nat)
    requires Represents(files, current, hunk, region, s) && i < |files|
    ensures |files| == |s.files| && files[i].Valid() && files[i].Frozen == s.files[i]
  {
    var n := |files| - 1;
    if i < n {
      assert files[..n][i] == files[i] && s.files[..n][i] == s.files[i];
    }
  }

  /** `tuple(file.freeze() for file in files)`. */
  method FreezeAll(files: seq<FileBuilder>, current: FileBuilder, ghost hunk: HunkBuilder?,
      ghost region: set<object>, ghost s: Reader)
    returns (r: seq<FileDiff>)
    requires Represents(files, current, hunk, region, s)
    ensures r == s.files
  {
    r := [];
    for i := 0 to |files|
      invariant r == s.files[..i]
    {
      BuilderHoldsFile(files, current, hunk, region, s, i);
      var file := files[i].Freeze();
      assert s.files[..i + 1] == s.files[..i] + [file];
      r := r + [file];
    }
  }

  /** Builders of the current file, all of them new since the start of the reading. */
  ghost function Owned(current: FileBuilder?): set<object>
    reads current
  {
    if current == null then {} else current.Repr
  }

  method MarkCurrent(files: seq<FileBuilder>, current: FileBuilder?, ghost hunk: HunkBuilder?,
      ghost region: set<object>, ghost s: Reader)
    returns (error: Option<DiffError>)
    requires Represents(files, current, hunk, region, s)
    modifies if current == null then {} else {current}
    ensures Owned(current) == old(Owned(current))
    ensures ReadMarker(s).Ok? ==> error.None? && Represents(files, current, hunk, region, ReadMarker(s).value)
    ensures ReadMarker(s).Err? ==> error == Some(ReadMarker(s).error)
  {
    hide RecordMarker;
    if current == null {
      return Some(MisplacedMarker);
    }
    error := current.RecordNoNewlineMarker();
  }

  /** A line of an open hunk: number it, count down, and append it to the file and the hunk. */
  method TakeBodyLine(files: seq<FileBuilder>, current: FileBuilder?, hunk: HunkBuilder?, line: string,
                      oldRemaining: int, newRemaining: int, oldLine: nat, newLine: nat,
                      ghost region: set<object>, ghost s: Reader)
    returns (error: Option<DiffError>, oldLeft: int, newLeft: int, oldNext: nat, newNext: nat)
    requires Represents(files, current, hunk, region, s)
    requires oldRemaining >= 0 && newRemaining >= 0 && s.counters == Some(Counters(oldRemaining, newRemaining, oldLine, newLine))
    requires line != MARKER
    modifies Owned(current)
    ensures Owned(current) == old(Owned(current))
    ensures ReadInside(s, line).Err? ==> error == Some(ReadInside(s, line).error)
    ensures ReadInside(s, line).Ok? ==>
              && error.None? && oldLeft >= 0 && newLeft >= 0
              && ReadInside(s, line).value.counters == Some(Counters(oldLeft, newLeft, oldNext, newNext))
              && Represents(files, current, hunk, region, ReadInside(s, line).value)
  {
    hide AppendLine;
    oldLeft, newLeft, oldNext, newNext := oldRemaining, newRemaining, oldLine, newLine;
    if !IsBodyLine(line) {
      return Some(MalformedHunkContent), oldLeft, newLeft, oldNext, newNext;
    }
    var kind := BodyKind(line);
    var parsed := NumberedLine(line, oldLine, newLine);
    if kind != Added {
      oldLeft, oldNext := oldLeft - 1, oldNext + 1;
    }
    if kind != Removed {
      newLeft, newNext := newLeft - 1, newNext + 1;
    }
    current.Append(hunk, parsed);
    error := if oldLeft < 0 || newLeft < 0 then Some(CountsDisagree) else None;
  }

  lemma FinishCurrent(files: seq<FileBuilder>, current: FileBuilder?, hunk: HunkBuilder?, region: set<object>,
      s: Reader)
    requires Represents(files, current, hunk, region, s)
    ensures Finished(files, s.files, region + Owned(current))
  {
  }

  /** A builder for a file whose headers were accepted. */
  method StartFile(files: seq<FileBuilder>, current: FileBuilder?, ghost hunk: HunkBuilder?, file: FileDiff,
                   ghost region: set<object>, ghost s: Reader, ghost next: Reader)
    returns (builder: FileBuilder)
    requires Represents(files, current, hunk, region, s) && s.counters.None?
    requires file.lines == [] && file.hunks == [] && !file.oldNoNewline && !file.newNoNewline
    requires file.oldNoNewlineLine.None? && file.newNoNewlineLine.None?
    requires next.files == s.files + [file] && next.counters.None?
    ensures fresh(builder) && fresh(builder.Repr)
    ensures Represents(files + [builder], builder, null, region + Owned(current), next)
  {
    FinishCurrent(files, current, hunk, region, s);
    builder := new FileBuilder(file);
    assert (files + [builder])[..|files|] == files;
    assert next.files[..|s.files|] == s.files;
  }

  /** A builder for the hunk a header line starts. */
  method StartHunk(files: seq<FileBuilder>, current: FileBuilder, ghost hunk: HunkBuilder?, start: Hunk,
                   ghost region: set<object>, ghost s: Reader)
    returns (builder: HunkBuilder)
    requires Represents(files, current, hunk, region, s) && start.lines == []
    modifies current
    ensures current.Repr == old(current.Repr) + {builder} && fresh(builder)
    ensures Represents(files, current, builder, region,
                       s.WithCurrent(AppendHunk(s.Current(), start)).(counters := Some(HunkCounters(start))))
  {
    builder := new HunkBuilder(start);
    current.AddHunk(builder);
  }

  /** The current builder has hunks exactly when the current file of the reader has. */
  lemma CurrentOf(files: seq<FileBuilder>, current: FileBuilder?, hunk: HunkBuilder?, region: set<object>, s: Reader)
    requires Represents(files, current, hunk, region, s)
    ensures s.Valid()
    ensures current == null <==> s.files == []
    ensures current != null ==> current.hasHunk == (s.Current().hunks != [])
    ensures s.counters.None? ==> Represents(files, current, null, region, s)
    ensures s.counters.Some? ==> Represents(files, current, hunk, region, s.(counters := None))
    ensures s.counters.None? ==> forall ignored :: Represents(files, current, hunk, region, s.(ignored := ignored))
  {
  }

  /** The lines have this derivation, and it has a meaning. */
  ghost predicate IsDerivation(rules: PathRules, tree: DiffTree, lines: seq<string>) {
    Derives(rules, tree) && TreeText(tree) == lines && Meaning(rules, tree).Ok?
  }

  /** Reading a text is finding its derivation. */
  lemma ParseIsDerivation(rules: PathRules, text: string)
    ensures Parse(rules, text).Ok? <==> '\0' !in text && exists tree :: IsDerivation(rules, tree, Split(NormalizeNewlines(text)))
    ensures forall tree :: Parse(rules, text).Ok? && IsDerivation(rules, tree, Split(NormalizeNewlines(text))) ==>
              Meaning(rules, tree) == Ok(Contents(Parse(rules, text).value.files, Parse(rules, text).value.hasIgnoredContent))
  {
    hide Run, Derives, TreeText, Meaning, Split, NormalizeNewlines;
    var lines := Split(NormalizeNewlines(text));
    forall tree | IsDerivation(rules, tree, lines) ensures Run(rules, START, lines) == Meaning(rules, tree) {
      ReaderAcceptsDerivation(rules, tree);
    }
    if Run(rules, START, lines).Ok? {
      var tree := ReaderFollowsDerivation(rules, lines);
      assert IsDerivation(rules, tree, Split(NormalizeNewlines(text)));
      assert '\0' !in text ==> Parse(rules, text).Ok?;
    }
  }

  method ParseUnifiedDiff(rules: PathRules, text: string) returns (r: Result<ParsedDiff, DiffError>)
    ensures r == Parse(rules, text)
    ensures r.Ok? <==> '\0' !in text && exists tree :: IsDerivation(rules, tree, Split(NormalizeNewlines(text)))
    ensures forall tree :: r.Ok? && IsDerivation(rules, tree, Split(NormalizeNewlines(text))) ==>
              Meaning(rules, tree) == Ok(Contents(r.value.files, r.value.hasIgnoredContent))
  {
    ParseIsDerivation(rules, text);
    if '\0' in text {
      return Err(ContainsNul);
    }
    var normalized := NormalizeNewlines(text);
    var lines := Split(normalized);
    var contents := ReadLines(rules, lines);
    if contents.Err? {
      return Err(contents.error);
    }
    r := Ok(ParsedDiff(normalized, contents.value.files, contents.value.ignored));
  }

  /** The reading loop. Its measure is lexicographic: closing a hunk takes no line. */
  method ReadLines(rules: PathRules, lines: seq<string>) returns (r: Result<Contents, DiffError>)
    ensures r == Run(rules, START, lines)
  {
    hide Run, ReadMarker, ReadInside, OpenFile, OpenHunk, Represents, IsBodyLine;
    var files: seq<FileBuilder> := [];
    var identities: set<string> := {};
    var current: FileBuilder? := null;
    var oldRemaining: Option<int>, newRemaining: Option<int> := None, None;
    var oldLine: nat, newLine: nat := 0, 0;
    var currentHunk: HunkBuilder? := null;
    var hasIgnoredContent := false;
    var index := 0;
    ghost var s, region := START, {};
    Nothing();
    while index < |lines|
      invariant 0 <= index <= |lines|
      invariant Represents(files, current, currentHunk, region, s)
      invariant fresh(Owned(current)) && (current != null ==> fresh(current))
      invariant s.Valid() && s.identities == identities && s.ignored == hasIgnoredContent
      invariant oldRemaining.Some? <==> newRemaining.Some?
      invariant oldRemaining.Some? ==> oldRemaining.value >= 0 && newRemaining.value >= 0
      invariant s.counters == if oldRemaining.Some? then Some(Counters(oldRemaining.value, newRemaining.value, oldLine, newLine)) else None
      invariant Run(rules, START, lines) == Run(rules, s, lines[index..])
      decreases |lines| - index, if oldRemaining.Some? then 1 else 0
    {
      var line := lines[index];
      assert lines[index..][0] == line && lines[index..][1..] == lines[index + 1..];
      CurrentOf(files, current, currentHunk, region, s);
      if oldRemaining.Some? && newRemaining.Some? {
        if oldRemaining.value == 0 && newRemaining.value == 0 {
          AtHunkEnd(rules, s, lines[index..]);
          oldRemaining, newRemaining := None, None;
          if line == MARKER {
            InsideMarker(s);
            var error := MarkCurrent(files, current, currentHunk, region, s);
            if error.Some? {
              return Err(error.value);
            }
            s := ReadMarker(s).value;
            index := index + 1;
          }
          CurrentOf(files, current, currentHunk, region, s);
          s := s.(counters := None);
          continue;
        }
        AtInside(rules, s, lines[index..]);
        if line == MARKER {
          InsideMarker(s);
          var error := MarkCurrent(files, current, currentHunk, region, s);
          if error.Some? {
            return Err(error.value);
          }
          s := ReadMarker(s).value;
          index := index + 1;
          continue;
        }
        var error, oldLeft, newLeft, oldNext, newNext :=
          TakeBodyLine(files, current, currentHunk, line, oldRemaining.value, newRemaining.value, oldLine, newLine, region, s);
        if error.Some? {
          return Err(error.value);
        }
        oldRemaining, newRemaining, oldLine, newLine := Some(oldLeft), Some(newLeft), oldNext, newNext;
        InsideKeeps(s, line);
        s := ReadInside(s, line).value;
        index := index + 1;
        continue;
      }
      if "--- " <= line {
        AtFileHeader(rules, s, lines[index..]);
        var paired := index + 1 < |lines| && "+++ " <= lines[index + 1];
        if current != null && !current.hasHunk {
          return Err(FileHasNoHunk);
        }
        if !paired {
          return Err(HeadersNotPaired);
        }
        var start := OpenFile(rules, line, lines[index + 1]);
        if start.Err? {
          return Err(start.error);
        }
        var identity := rules.fold(start.value.path);
        if identity in identities {
          return Err(DuplicateIdentity);
        }
        identities := identities + {identity};
        ghost var next := ReadFileHeaders(rules, s, line, lines[index + 1]).value;
        var builder := StartFile(files, current, currentHunk, start.value, region, s, next);
        region := region + Owned(current);
        current, currentHunk := builder, null;
        files := files + [current];
        assert lines[index..][2..] == lines[index + 2..];
        s := next;
        index := index + 2;
        continue;
      }
      AtOutside(rules, s, lines[index..]);
      if "+++ " <= line || "---" <= line || "+++" <= line {
        return Err(UnsupportedHeader);
      }
      if "@@" <= line {
        if current == null {
          return Err(MalformedHunk);
        }
        var start := OpenHunk(line);
        if start.Err? {
          return Err(start.error);
        }
        oldRemaining, newRemaining := Some(start.value.oldCount), Some(start.value.newCount);
        oldLine, newLine := start.value.oldStart, start.value.newStart;
        currentHunk := StartHunk(files, current, currentHunk, start.value, region, s);
      } else if IsBodyLine(line) || line == MARKER {
        return Err(ContentOutsideHunk);
      } else if line != "" {
        hasIgnoredContent := true;
      }
      s := ReadOutside(s, line).value;
      index := index + 1;
    }
    assert lines[index..] == [];
    AtEnd(rules, s);
    CurrentOf(files, current, currentHunk, region, s);
    if oldRemaining == Some(0) && newRemaining == Some(0) {
      oldRemaining, newRemaining := None, None;
    }
    if oldRemaining.Some? || newRemaining.Some? {
      return Err(CountsDisagree);
    }
    if current == null || !current.hasHunk {
      return Err(NoFileOrHunk);
    }
    var frozen := FreezeAll(files, current, currentHunk, region, s);
    r := Ok(Contents(frozen, hasIgnoredContent));
  }

  lemma Nothing()
    ensures Represents([], null, null, {}, START)
  {
  }

  lemma InsideMarker(s: Reader)
    requires s.Valid() && s.counters.Some?
    ensures ReadInside(s, MARKER) == ReadMarker(s)
    ensures ReadMarker(s).Ok? ==> ReadMarker(s).value == s.(files := ReadMarker(s).value.files)
  {
  }

  lemma InsideKeeps(s: Reader, line: string)
    requires s.Valid() && s.counters.Some? && ReadInside(s, line).Ok?
    ensures ReadInside(s, line).value.identities == s.identities && ReadInside(s, line).value.ignored == s.ignored
  {
  }
}
