/**
 The shape of a parsed hunk: lines numbered one after the other from the declared
 starts, exactly as many on each side as declared. Every hunk the reader returns has it.
 */
module DiffShape {
  import opened Wrappers
  import opened TextLines
  import opened UnifiedDiff

  /** How many lines are not of the given kind: Added leaves the old side, Removed the new side. */
  function SideLength(lines: seq<DiffLine>, kind: LineKind): nat {
    if lines == [] then 0
    else SideLength(lines[..|lines| - 1], kind) + (if lines[|lines| - 1].kind != kind then 1 else 0)
  }

  /** Each line carries the number its side gives it, and none on the side it is not on. */
  predicate NumberedFrom(lines: seq<DiffLine>, oldStart: nat, newStart: nat) {
    forall i :: 0 <= i < |lines| ==> NumberedAfter(lines[i], lines[..i], oldStart, newStart)
  }

  predicate NumberedAfter(line: DiffLine, before: seq<DiffLine>, oldStart: nat, newStart: nat) {
    && line.oldLine == (if line.OnOldSide() then Some(oldStart + SideLength(before, Added)) else None)
    && line.newLine == (if line.OnNewSide() then Some(newStart + SideLength(before, Removed)) else None)
  }

  predicate HunkHeadOk(hunk: Hunk) {
    (hunk.oldCount > 0 ==> hunk.oldStart > 0) && (hunk.newCount > 0 ==> hunk.newStart > 0)
  }

  predicate HunkShape(hunk: Hunk) {
    && HunkHeadOk(hunk)
    && NumberedFrom(hunk.lines, hunk.oldStart, hunk.newStart)
    && SideLength(hunk.lines, Added) == hunk.oldCount
    && SideLength(hunk.lines, Removed) == hunk.newCount
  }

  /** Contents of the lines of a text: no NUL, CR or LF. */
  predicate CleanContent(content: string) {
    '\0' !in content && '\r' !in content && '\n' !in content
  }

  function HunkLines(hunks: seq<Hunk>): seq<DiffLine> {
    if hunks == [] then [] else HunkLines(hunks[..|hunks| - 1]) + hunks[|hunks| - 1].lines
  }

  /** A line of a hunk is a line of the hunks. */
  lemma {:induction false} HunkLineIn(hunks: seq<Hunk>, hunk: Hunk, line: DiffLine)
    requires hunk in hunks && line in hunk.lines
    ensures line in HunkLines(hunks)
    decreases |hunks|
  {
    var n := |hunks| - 1;
    if hunk != hunks[n] {
      HunkLineIn(hunks[..n], hunk, line);
    }
  }

  predicate CleanLines(lines: seq<DiffLine>) {
    forall line :: line in lines ==> CleanContent(line.content)
  }

  predicate FileShape(file: FileDiff) {
    && CleanLines(file.lines)
    && (forall hunk :: hunk in file.hunks ==> HunkShape(hunk))
    && file.lines == HunkLines(file.hunks)
  }

  /** All hunks but the last have their shape; the last has it up to the lines still to come. */
  predicate OpenShape(file: FileDiff, c: Counters)
    requires file.hunks != []
  {
    var hunk := file.hunks[|file.hunks| - 1];
    && CleanLines(file.lines)
    && (forall i :: 0 <= i < |file.hunks| - 1 ==> HunkShape(file.hunks[i]))
    && file.lines == HunkLines(file.hunks)
    && HunkHeadOk(hunk)
    && NumberedFrom(hunk.lines, hunk.oldStart, hunk.newStart)
    && SideLength(hunk.lines, Added) + c.oldLeft == hunk.oldCount
    && SideLength(hunk.lines, Removed) + c.newLeft == hunk.newCount
    && c.oldLine == hunk.oldStart + SideLength(hunk.lines, Added)
    && c.newLine == hunk.newStart + SideLength(hunk.lines, Removed)
  }

  /** Every file of the reader has its shape, the last one up to its open hunk. */
  predicate ReaderShape(s: Reader)
    requires s.Valid()
  {
    && (forall i :: 0 <= i < |s.files| - 1 ==> FileShape(s.files[i]) && s.files[i].hunks != [])
    && (s.files != [] ==>
          if s.counters.Some? then OpenShape(s.Current(), s.counters.value) else FileShape(s.Current()))
  }

  lemma AppendedLine(file: FileDiff, line: DiffLine)
    requires file.hunks != [] && file.lines == HunkLines(file.hunks)
    ensures AppendLine(file, line).lines == HunkLines(AppendLine(file, line).hunks)
    ensures SideLength(file.hunks[|file.hunks| - 1].lines + [line], Added) ==
            SideLength(file.hunks[|file.hunks| - 1].lines, Added) + (if line.OnOldSide() then 1 else 0)
    ensures SideLength(file.hunks[|file.hunks| - 1].lines + [line], Removed) ==
            SideLength(file.hunks[|file.hunks| - 1].lines, Removed) + (if line.OnNewSide() then 1 else 0)
  {
    var n := |file.hunks| - 1;
    var after := AppendLine(file, line);
    assert after.hunks[..n] == file.hunks[..n];
    assert (file.hunks[n].lines + [line])[..|file.hunks[n].lines|] == file.hunks[n].lines;
  }

  lemma NumberedAppend(lines: seq<DiffLine>, line: DiffLine, oldStart: nat, newStart: nat)
    requires NumberedFrom(lines, oldStart, newStart) && NumberedAfter(line, lines, oldStart, newStart)
    ensures NumberedFrom(lines + [line], oldStart, newStart)
  {
    hide NumberedAfter;
    var all := lines + [line];
    forall i | 0 <= i < |all|
      ensures NumberedAfter(all[i], all[..i], oldStart, newStart)
    {
      assert all[..i] == if i < |lines| then lines[..i] else lines;
    }
  }

  /** Reading one line inside a hunk keeps the shape. */
  lemma InsideKeepsShape(s: Reader, line: string)
    requires CleanContent(line)
    requires s.Valid() && s.counters.Some? && ReaderShape(s) && ReadInside(s, line).Ok?
    ensures ReaderShape(ReadInside(s, line).value)
  {
    hide RecordMarker, NumberedFrom, HunkShape, FileShape, HunkLines, SideLength, ReadMarker;
    if line == MARKER {
      MarkerKeepsShape(s);
    } else {
      var c := s.counters.value;
      var numbered := NumberedLine(line, c.oldLine, c.newLine);
      var file := s.Current();
      AppendedLine(file, numbered);
      assert CleanContent(numbered.content);
      NumberedAppend(file.hunks[|file.hunks| - 1].lines, numbered, file.hunks[|file.hunks| - 1].oldStart, file.hunks[|file.hunks| - 1].newStart);
    }
  }

  lemma MarkerKeepsShape(s: Reader)
    requires s.Valid() && ReaderShape(s) && ReadMarker(s).Ok?
    ensures ReaderShape(ReadMarker(s).value)
  {
    var next := ReadMarker(s).value;
    assert next.Current().hunks == s.Current().hunks && next.Current().lines == s.Current().lines;
  }

  lemma CloseKeepsShape(s: Reader)
    requires s.Valid() && s.counters.Some? && s.counters.value.Exhausted() && ReaderShape(s)
    ensures ReaderShape(s.(counters := None))
  {
    var file := s.Current();
    forall hunk | hunk in file.hunks ensures HunkShape(hunk) {
      var i :| 0 <= i < |file.hunks| && file.hunks[i] == hunk;
      if i == |file.hunks| - 1 {}
    }
  }

  lemma OutsideKeepsShape(s: Reader, line: string)
    requires s.Valid() && s.counters.None? && ReaderShape(s) && ReadOutside(s, line).Ok?
    ensures ReaderShape(ReadOutside(s, line).value)
  {
    hide MatchHunkHeader;
    if "@@" <= line {
      var hunk := OpenHunk(line).value;
      var file := AppendHunk(s.Current(), hunk);
      assert file.hunks[..|file.hunks| - 1] == s.Current().hunks;
      assert HunkLines(file.hunks) == HunkLines(s.Current().hunks) + [];
    }
  }

  lemma FileKeepsShape(rules: PathRules, s: Reader, oldHeader: string, newHeader: string)
    requires |oldHeader| >= 4 && |newHeader| >= 4
    requires s.files != [] ==> s.Current().hunks != []
    requires s.Valid() && s.counters.None? && ReaderShape(s) && ReadFileHeaders(rules, s, oldHeader, newHeader).Ok?
    ensures ReaderShape(ReadFileHeaders(rules, s, oldHeader, newHeader).value)
  {
    hide HeaderPath;
    var next := ReadFileHeaders(rules, s, oldHeader, newHeader).value;
    forall i | 0 <= i < |next.files| - 1 ensures FileShape(next.files[i]) && next.files[i].hunks != [] {
      assert next.files[i] == s.files[i];
    }
  }

  lemma {:induction false} RunKeepsShape(rules: PathRules, s: Reader, lines: seq<string>)
    requires s.Valid() && ReaderShape(s) && Run(rules, s, lines).Ok?
    requires forall line :: line in lines ==> CleanContent(line)
    ensures forall file :: file in Run(rules, s, lines).value.files ==> FileShape(file) && file.hunks != []
    decreases |lines|, if s.counters.Some? then 1 else 0
  {
    hide ReadInside, ReadOutside, ReadFileHeaders, ReadMarker, FileShape, OpenShape;
    if lines == [] {
      if s.counters.Some? {
        CloseKeepsShape(s);
      }
    } else if s.counters.Some? {
      if s.counters.value.Exhausted() {
        if lines[0] == MARKER {
          MarkerKeepsShape(s);
          var next := ReadMarker(s).value;
          CloseKeepsShape(next);
          RunKeepsShape(rules, next.(counters := None), lines[1..]);
        } else {
          CloseKeepsShape(s);
          RunKeepsShape(rules, s.(counters := None), lines);
        }
      } else {
        InsideKeepsShape(s, lines[0]);
        RunKeepsShape(rules, ReadInside(s, lines[0]).value, lines[1..]);
      }
    } else if "--- " <= lines[0] {
      FileKeepsShape(rules, s, lines[0], lines[1]);
      RunKeepsShape(rules, ReadFileHeaders(rules, s, lines[0], lines[1]).value, lines[2..]);
    } else {
      OutsideKeepsShape(s, lines[0]);
      RunKeepsShape(rules, ReadOutside(s, lines[0]).value, lines[1..]);
    }
  }

  /** What the reader promises of every diff it returns. */
  lemma ParsedShape(rules: PathRules, text: string)
    requires Parse(rules, text).Ok?
    ensures Parse(rules, text).value.files != []
    ensures forall file :: file in Parse(rules, text).value.files ==> FileShape(file) && file.hunks != []
  {
    var lines := Split(NormalizeNewlines(text));
    forall line | line in lines ensures CleanContent(line) {
      assert forall c :: c in line ==> c in NormalizeNewlines(text);
    }
    RunKeepsShape(rules, START, lines);
    RunGivesFiles(rules, START, lines);
  }

  lemma {:induction false} RunGivesFiles(rules: PathRules, s: Reader, lines: seq<string>)
    requires s.Valid() && Run(rules, s, lines).Ok?
    ensures Run(rules, s, lines).value.files != []
    decreases |lines|, if s.counters.Some? then 1 else 0
  {
    hide ReadInside, ReadOutside, ReadFileHeaders, ReadMarker;
    if lines != [] {
      if s.counters.Some? {
        if s.counters.value.Exhausted() {
          if lines[0] == MARKER {
            RunGivesFiles(rules, ReadMarker(s).value.(counters := None), lines[1..]);
          } else {
            RunGivesFiles(rules, s.(counters := None), lines);
          }
        } else {
          RunGivesFiles(rules, ReadInside(s, lines[0]).value, lines[1..]);
        }
      } else if "--- " <= lines[0] {
        RunGivesFiles(rules, ReadFileHeaders(rules, s, lines[0], lines[1]).value, lines[2..]);
      } else {
        RunGivesFiles(rules, ReadOutside(s, lines[0]).value, lines[1..]);
      }
    }
  }

  // ---------------------------------------------------------------- paths

  predicate FoldDistinctPaths(rules: PathRules, files: seq<FileDiff>) {
    forall i, j :: 0 <= i < j < |files| ==> rules.fold(files[i].path) != rules.fold(files[j].path)
  }

  predicate NamesFile(file: FileDiff) {
    file.oldPath.Some? || file.newPath.Some?
  }

  /** The identities met are those of the files, one each. */
  predicate ReaderIdentities(rules: PathRules, s: Reader) {
    && FoldDistinctPaths(rules, s.files)
    && (forall i :: 0 <= i < |s.files| ==> NamesFile(s.files[i]) && rules.fold(s.files[i].path) in s.identities)
  }

  lemma InsideKeepsIdentities(rules: PathRules, s: Reader, line: string)
    requires s.Valid() && s.counters.Some? && ReaderIdentities(rules, s) && ReadInside(s, line).Ok?
    ensures ReaderIdentities(rules, ReadInside(s, line).value)
  {
    hide Step, BodyKind, NumberedLine;
  }

  lemma MarkerKeepsIdentities(rules: PathRules, s: Reader)
    requires s.Valid() && ReaderIdentities(rules, s) && ReadMarker(s).Ok?
    ensures ReaderIdentities(rules, ReadMarker(s).value)
  {
  }

  lemma OutsideKeepsIdentities(rules: PathRules, s: Reader, line: string)
    requires s.Valid() && s.counters.None? && ReaderIdentities(rules, s) && ReadOutside(s, line).Ok?
    ensures ReaderIdentities(rules, ReadOutside(s, line).value)
  {
    hide OpenHunk;
  }

  lemma FileKeepsIdentities(rules: PathRules, s: Reader, oldHeader: string, newHeader: string)
    requires |oldHeader| >= 4 && |newHeader| >= 4 && s.counters.None? && ReaderIdentities(rules, s)
    requires ReadFileHeaders(rules, s, oldHeader, newHeader).Ok?
    ensures ReaderIdentities(rules, ReadFileHeaders(rules, s, oldHeader, newHeader).value)
  {
    hide HeaderPath;
  }

  lemma {:induction false} RunKeepsIdentities(rules: PathRules, s: Reader, lines: seq<string>)
    requires s.Valid() && ReaderIdentities(rules, s) && Run(rules, s, lines).Ok?
    ensures var files := Run(rules, s, lines).value.files;
            FoldDistinctPaths(rules, files) && forall file :: file in files ==> NamesFile(file)
    decreases |lines|, if s.counters.Some? then 1 else 0
  {
    hide ReadInside, ReadOutside, ReadFileHeaders, ReadMarker, NamesFile;
    if lines == [] {
    } else if s.counters.Some? {
      if s.counters.value.Exhausted() {
        if lines[0] == MARKER {
          MarkerKeepsIdentities(rules, s);
          RunKeepsIdentities(rules, ReadMarker(s).value.(counters := None), lines[1..]);
        } else {
          RunKeepsIdentities(rules, s.(counters := None), lines);
        }
      } else {
        InsideKeepsIdentities(rules, s, lines[0]);
        RunKeepsIdentities(rules, ReadInside(s, lines[0]).value, lines[1..]);
      }
    } else if "--- " <= lines[0] {
      FileKeepsIdentities(rules, s, lines[0], lines[1]);
      RunKeepsIdentities(rules, ReadFileHeaders(rules, s, lines[0], lines[1]).value, lines[2..]);
    } else {
      OutsideKeepsIdentities(rules, s, lines[0]);
      RunKeepsIdentities(rules, ReadOutside(s, lines[0]).value, lines[1..]);
    }
  }

  /** The files of a parsed diff have names, and no two of them the same one in any case. */
  lemma ParsedPathsDistinct(rules: PathRules, text: string)
    requires Parse(rules, text).Ok?
    ensures FoldDistinctPaths(rules, Parse(rules, text).value.files)
    ensures forall file :: file in Parse(rules, text).value.files ==> NamesFile(file)
  {
    RunKeepsIdentities(rules, START, Split(NormalizeNewlines(text)));
  }

  // ---------------------------------------------------------------- heads and markers

  predicate NumberOk(n: nat) {
    |Decimal(n)| <= MAX_NUMBER_DIGITS
  }

  predicate HunkNumbersOk(hunk: Hunk) {
    NumberOk(hunk.oldStart) && NumberOk(hunk.oldCount) && NumberOk(hunk.newStart) && NumberOk(hunk.newCount)
  }

  /** A flag goes with the number of one of the file's lines. */
  predicate MarkedLines(file: FileDiff) {
    && (file.oldNoNewline ==> exists line :: line in file.lines && line.OnOldSide() && line.oldLine == file.oldNoNewlineLine)
    && (file.newNoNewline ==> exists line :: line in file.lines && line.OnNewSide() && line.newLine == file.newNoNewlineLine)
    && (!file.oldNoNewline ==> file.oldNoNewlineLine.None?)
    && (!file.newNoNewline ==> file.newNoNewlineLine.None?)
  }

  /** Valid paths that agree with the file's own, numbers of at most 18 digits, and markers on lines. */
  predicate HeadOk(rules: PathRules, file: FileDiff) {
    && ValidPath(rules, file.path)
    && NamesFile(file)
    && (file.oldPath.Some? ==> file.oldPath.value == file.path)
    && (file.newPath.Some? ==> file.newPath.value == file.path)
    && (forall hunk :: hunk in file.hunks ==> HunkNumbersOk(hunk))
    && MarkedLines(file)
  }

  lemma {:induction false} NumeralShort(text: string)
    requires AllDigits(text)
    ensures |Decimal(NumeralValue(text))| <= if text == "" then 1 else |text|
    decreases |text|
  {
    if text == "" {
      assert NumeralValue(text) == 0;
    } else {
      assert text[|text| - 1] in text;
      NumeralShort(text[..|text| - 1]);
      assert NumeralValue(text) / 10 == NumeralValue(text[..|text| - 1]);
    }
  }

  lemma OpenedNumbers(header: string)
    requires OpenHunk(header).Ok?
    ensures HunkNumbersOk(OpenHunk(header).value)
  {
    hide Decimal, NumeralValue, MatchHunkHeader, AllDigits;
    var text := MatchHunkHeader(header).value;
    NumeralShort(text.before.start);
    NumeralShort(text.after.start);
    if text.before.count.Some? {
      NumeralShort(text.before.count.value);
    }
    if text.after.count.Some? {
      NumeralShort(text.after.count.value);
    }
    OneDigit();
  }

  lemma OneDigit()
    ensures |Decimal(1)| == 1
  {
  }

  lemma AppendKeepsHead(rules: PathRules, file: FileDiff, line: DiffLine)
    requires HeadOk(rules, file) && file.hunks != []
    ensures HeadOk(rules, AppendLine(file, line))
  {
    hide ValidPath, NumberOk;
    var after, n := AppendLine(file, line), |file.hunks| - 1;
    assert forall earlier :: earlier in file.lines ==> earlier in after.lines;
    forall hunk | hunk in after.hunks ensures HunkNumbersOk(hunk) {
      var i :| 0 <= i < |after.hunks| && after.hunks[i] == hunk;
      assert file.hunks[i] in file.hunks;
    }
  }

  lemma MarkKeepsHead(rules: PathRules, file: FileDiff)
    requires HeadOk(rules, file) && RecordMarker(file).Ok?
    ensures HeadOk(rules, RecordMarker(file).value)
  {
    hide ValidPath, HunkNumbersOk;
    assert file.lines[|file.lines| - 1] in file.lines;
  }

  predicate ReaderHeads(rules: PathRules, s: Reader) {
    forall file :: file in s.files ==> HeadOk(rules, file)
  }

  lemma ReplacedHeads(rules: PathRules, s: Reader, file: FileDiff)
    requires ReaderHeads(rules, s) && s.files != [] && HeadOk(rules, file)
    ensures ReaderHeads(rules, s.WithCurrent(file))
  {
    hide HeadOk;
    var after := s.WithCurrent(file);
    forall other | other in after.files ensures HeadOk(rules, other) {
      var i :| 0 <= i < |after.files| && after.files[i] == other;
      assert s.files[i] in s.files;
    }
  }

  lemma InsideKeepsHeads(rules: PathRules, s: Reader, line: string)
    requires s.Valid() && s.counters.Some? && ReaderHeads(rules, s) && ReadInside(s, line).Ok?
    ensures ReaderHeads(rules, ReadInside(s, line).value)
  {
    hide HeadOk, AppendLine, NumberedLine, RecordMarker, ReadMarker;
    if line == MARKER {
      MarkerKeepsHeads(rules, s);
    } else {
      var c := s.counters.value;
      var numbered := NumberedLine(line, c.oldLine, c.newLine);
      AppendKeepsHead(rules, s.Current(), numbered);
      ReplacedHeads(rules, s, AppendLine(s.Current(), numbered));
    }
  }

  lemma MarkerKeepsHeads(rules: PathRules, s: Reader)
    requires s.Valid() && ReaderHeads(rules, s) && ReadMarker(s).Ok?
    ensures ReaderHeads(rules, ReadMarker(s).value)
  {
    hide HeadOk, RecordMarker;
    MarkKeepsHead(rules, s.Current());
    ReplacedHeads(rules, s, RecordMarker(s.Current()).value);
  }

  lemma OutsideKeepsHeads(rules: PathRules, s: Reader, line: string)
    requires s.Valid() && s.counters.None? && ReaderHeads(rules, s) && ReadOutside(s, line).Ok?
    ensures ReaderHeads(rules, ReadOutside(s, line).value)
  {
    hide OpenHunk, HeadOk, HunkNumbersOk, AppendHunk;
    var after := ReadOutside(s, line).value;
    if "@@" <= line {
      OpenedNumbers(line);
      var file := AppendHunk(s.Current(), OpenHunk(line).value);
      HunkKeepsHead(rules, s.Current(), OpenHunk(line).value);
      ReplacedHeads(rules, s, file);
      SameHeads(rules, s.WithCurrent(file), after);
    } else {
      SameHeads(rules, s, after);
    }
  }

  lemma SameHeads(rules: PathRules, a: Reader, b: Reader)
    requires ReaderHeads(rules, a) && a.files == b.files
    ensures ReaderHeads(rules, b)
  {
    hide HeadOk;
  }

  lemma HunkKeepsHead(rules: PathRules, file: FileDiff, hunk: Hunk)
    requires HeadOk(rules, file) && HunkNumbersOk(hunk)
    ensures HeadOk(rules, AppendHunk(file, hunk))
  {
    hide ValidPath, HunkNumbersOk;
  }

  lemma FileKeepsHeads(rules: PathRules, s: Reader, oldHeader: string, newHeader: string)
    requires |oldHeader| >= 4 && |newHeader| >= 4 && s.counters.None? && ReaderHeads(rules, s)
    requires ReadFileHeaders(rules, s, oldHeader, newHeader).Ok?
    ensures ReaderHeads(rules, ReadFileHeaders(rules, s, oldHeader, newHeader).value)
  {
    hide ValidPath;
  }

  lemma {:induction false} RunKeepsHeads(rules: PathRules, s: Reader, lines: seq<string>)
    requires s.Valid() && ReaderHeads(rules, s) && Run(rules, s, lines).Ok?
    ensures forall file :: file in Run(rules, s, lines).value.files ==> HeadOk(rules, file)
    decreases |lines|, if s.counters.Some? then 1 else 0
  {
    hide ReadInside, ReadOutside, ReadFileHeaders, ReadMarker, HeadOk;
    if lines == [] {
    } else if s.counters.Some? {
      if s.counters.value.Exhausted() {
        if lines[0] == MARKER {
          MarkerKeepsHeads(rules, s);
          RunKeepsHeads(rules, ReadMarker(s).value.(counters := None), lines[1..]);
        } else {
          RunKeepsHeads(rules, s.(counters := None), lines);
        }
      } else {
        InsideKeepsHeads(rules, s, lines[0]);
        RunKeepsHeads(rules, ReadInside(s, lines[0]).value, lines[1..]);
      }
    } else if "--- " <= lines[0] {
      FileKeepsHeads(rules, s, lines[0], lines[1]);
      RunKeepsHeads(rules, ReadFileHeaders(rules, s, lines[0], lines[1]).value, lines[2..]);
    } else {
      OutsideKeepsHeads(rules, s, lines[0]);
      RunKeepsHeads(rules, ReadOutside(s, lines[0]).value, lines[1..]);
    }
  }

  /** Paths, numbers and markers of every returned file. */
  lemma ParsedHeads(rules: PathRules, text: string)
    requires Parse(rules, text).Ok?
    ensures forall file :: file in Parse(rules, text).value.files ==> HeadOk(rules, file)
  {
    hide Run, HeadOk;
    RunKeepsHeads(rules, START, Split(NormalizeNewlines(text)));
  }
}
