/**
 Printing a parsed diff back as text, and the proof that reading the printed text
 gives back the same files, hunks, coordinates and newline flags.
 */
module DiffPrinter {
  import opened Wrappers
  import opened TextLines
  import opened UnifiedDiff
  import opened DiffGrammar
  import opened DiffShape

  // ---------------------------------------------------------------- printing

  function HunkHeader(hunk: Hunk): string {
    "@@ -" + Decimal(hunk.oldStart) + "," + Decimal(hunk.oldCount) +
    " +" + Decimal(hunk.newStart) + "," + Decimal(hunk.newCount) + " @@"
  }

  function PrintLine(line: DiffLine): string {
    [match line.kind case Context => ' ' case Added => '+' case Removed => '-'] + line.content
  }

  /** The lines of a hunk whose first line is line `base` of the file; `marks` are the marked lines. */
  function PrintBody(lines: seq<DiffLine>, marks: set<nat>, base: nat): seq<string> {
    if lines == [] then []
    else
      var n := |lines| - 1;
      PrintBody(lines[..n], marks, base) + [PrintLine(lines[n])] + (if base + n in marks then [MARKER] else [])
  }

  function PrintHunk(hunk: Hunk, marks: set<nat>, base: nat): HunkTree {
    if hunk.lines == [] then HunkTree(HunkHeader(hunk), [], false)
    else
      var n := |hunk.lines| - 1;
      HunkTree(HunkHeader(hunk), PrintBody(hunk.lines[..n], marks, base) + [PrintLine(hunk.lines[n])], base + n in marks)
  }

  function PrintHunks(hunks: seq<Hunk>, marks: set<nat>, base: nat): seq<Section> {
    if hunks == [] then []
    else [HunkSection(PrintHunk(hunks[0], marks, base))] + PrintHunks(hunks[1..], marks, base + |hunks[0].lines|)
  }

  function PrintFile(file: FileDiff): FileTree {
    FileTree("--- " + (if file.oldPath.None? then "/dev/null" else "a/" + file.oldPath.value),
             "+++ " + (if file.newPath.None? then "/dev/null" else "b/" + file.newPath.value),
             PrintHunks(file.hunks, Marks(file), 0))
  }

  function PrintFiles(files: seq<FileDiff>): seq<FileTree> {
    if files == [] then [] else [PrintFile(files[0])] + PrintFiles(files[1..])
  }

  /** The text of a diff, every line terminated. */
  function Print(files: seq<FileDiff>): string {
    Join(FilesText(PrintFiles(files)) + [""], "\n")
  }

  // ---------------------------------------------------------------- what can be printed

  /** The index of the last line that is not of the given kind, plus one; zero when there is none. */
  function LastOnSide(lines: seq<DiffLine>, kind: LineKind): (n: nat)
    ensures n <= |lines|
    ensures n > 0 ==> lines[n - 1].kind != kind
    ensures forall i :: n <= i < |lines| ==> lines[i].kind == kind
  {
    if lines == [] || lines[|lines| - 1].kind != kind then |lines| else LastOnSide(lines[..|lines| - 1], kind)
  }

  /** The lines a marker follows: the last old line and the last new line, where flagged. */
  function Marks(file: FileDiff): set<nat> {
    var o, n := LastOnSide(file.lines, Added), LastOnSide(file.lines, Removed);
    (if file.oldNoNewline && o > 0 then {o - 1} else {}) + (if file.newNoNewline && n > 0 then {n - 1} else {})
  }

  /** The flags name the last old and new line; a marked context line is the last of both. */
  predicate MarksOk(file: FileDiff) {
    var o, n := LastOnSide(file.lines, Added), LastOnSide(file.lines, Removed);
    && (file.oldNoNewline ==> o > 0 && (file.lines[o - 1].kind == Context ==> file.newNoNewline && n == o))
    && (file.newNoNewline ==> n > 0 && (file.lines[n - 1].kind == Context ==> file.oldNoNewline && n == o))
    && file.oldNoNewlineLine == (if file.oldNoNewline then file.lines[o - 1].oldLine else None)
    && file.newNoNewlineLine == (if file.newNoNewline then file.lines[n - 1].newLine else None)
  }

  predicate Printable(rules: PathRules, file: FileDiff) {
    && ValidPath(rules, file.path)
    && (file.oldPath.Some? || file.newPath.Some?)
    && (file.oldPath.Some? ==> file.oldPath.value == file.path)
    && (file.newPath.Some? ==> file.newPath.value == file.path)
    && file.hunks != []
    && FileShape(file)
    && (forall hunk :: hunk in file.hunks ==> HunkNumbersOk(hunk))
    && MarksOk(file)
  }

  // ---------------------------------------------------------------- headers read back

  lemma {:induction false} DigitPrefixOf(digits: string, rest: string)
    requires AllDigits(digits) && (rest != "" ==> !IsDigit(rest[0]))
    ensures DigitPrefix(digits + rest) == |digits|
  {
    if digits == "" {
      assert digits + rest == rest;
    } else {
      assert digits[0] in digits;
      assert (digits + rest)[1..] == digits[1..] + rest;
      DigitPrefixOf(digits[1..], rest);
    }
  }

  lemma Cut(a: string, b: string)
    ensures (a + b)[..|a|] == a && (a + b)[|a|..] == b
  {
  }

  lemma ReadDigitsRange(start: string, count: string, rest: string)
    requires AllDigits(start) && start != "" && (start == "0" || start[0] != '0')
    requires AllDigits(count) && count != ""
    requires rest != "" ==> !IsDigit(rest[0])
    ensures ReadRange(start + ("," + (count + rest))) == Some(RangeText(start, Some(count), rest))
  {
    hide DigitPrefix, AllDigits;
    var tail := "," + (count + rest);
    Cut(start, tail);
    DigitPrefixOf(start, tail);
    Cut(",", count + rest);
    DigitPrefixOf(count, rest);
    Cut(count, rest);
    assert (start + tail)[0] == start[0];
  }

  lemma ReadPrintedHeader(hunk: Hunk)
    requires HunkHeadOk(hunk) && HunkNumbersOk(hunk)
    ensures OpenHunk(HunkHeader(hunk)) == Ok(hunk.(lines := []))
  {
    hide Decimal, ReadRange, NumeralValue, AllDigits;
    var a, b, c, d := Decimal(hunk.oldStart), Decimal(hunk.oldCount), Decimal(hunk.newStart), Decimal(hunk.newCount);
    var after := c + ("," + (d + " @@"));
    var before := a + ("," + (b + (" +" + after)));
    HeaderAssociates(a, b, c, d);
    Cut("@@ -", before);
    ReadDigitsRange(a, b, " +" + after);
    Cut(" +", after);
    ReadDigitsRange(c, d, " @@");
    assert (" @@")[3..] == "";
  }

  lemma HeaderAssociates(a: string, b: string, c: string, d: string)
    ensures "@@ -" + a + "," + b + " +" + c + "," + d + " @@" ==
            "@@ -" + (a + ("," + (b + (" +" + (c + ("," + (d + " @@")))))))
  {
  }

  lemma ReadPrintedPath(rules: PathRules, path: Option<string>, side: char)
    requires path.Some? ==> ValidPath(rules, path.value)
    requires side == 'a' || side == 'b'
    ensures HeaderPath(rules, if path.None? then "/dev/null" else [side, '/'] + path.value, [side, '/']) == Ok(path)
  {
    hide ValidPath;
    if path.Some? {
      assert ([side, '/'] + path.value)[0] != "/dev/null"[0];
      assert ([side, '/'] + path.value)[2..] == path.value;
    }
  }

  /** The empty builder of a printed file. */
  function Blank(file: FileDiff): FileDiff {
    FileDiff(file.path, file.oldPath, file.newPath, [], [], false, false, None, None)
  }

  lemma ReadPrintedFileHeaders(rules: PathRules, file: FileDiff)
    requires Printable(rules, file)
    ensures var tree := PrintFile(file);
            && "--- " <= tree.oldHeader && "+++ " <= tree.newHeader
            && OpenFile(rules, tree.oldHeader, tree.newHeader) == Ok(Blank(file))
  {
    hide PrintHunks, Marks, HeaderPath, ValidPath, FileShape, HunkNumbersOk, MarksOk;
    var tree := PrintFile(file);
    ReadPrintedPath(rules, file.oldPath, 'a');
    ReadPrintedPath(rules, file.newPath, 'b');
    assert "a/" == ['a', '/'] && "b/" == ['b', '/'];
    assert tree.oldHeader[4..] == if file.oldPath.None? then "/dev/null" else "a/" + file.oldPath.value;
    assert tree.newHeader[4..] == if file.newPath.None? then "/dev/null" else "b/" + file.newPath.value;
  }

  // ---------------------------------------------------------------- bodies read back

  lemma {:induction false} BodyMeaningAppend(file: FileDiff, xs: seq<string>, ys: seq<string>, o: nat, n: nat)
    requires file.hunks != []
    ensures BodyMeaning(file, xs + ys, o, n) ==
            (match BodyMeaning(file, xs, o, n)
             case Err(error) => Err(error)
             case Ok(read) => BodyMeaning(read, ys, o + CountExcept(xs, Added), n + CountExcept(xs, Removed)))
    decreases |xs|
  {
    hide RecordMarker, AppendLine;
    if xs == [] {
      assert xs + ys == ys;
    } else {
      assert (xs + ys)[1..] == xs[1..] + ys;
      if !IsBodyLine(xs[0]) {
        if RecordMarker(file).Ok? {
          BodyMeaningAppend(RecordMarker(file).value, xs[1..], ys, o, n);
        }
      } else {
        var line := NumberedLine(xs[0], o, n);
        BodyMeaningAppend(AppendLine(file, line), xs[1..], ys,
                          if line.OnOldSide() then o + 1 else o, if line.OnNewSide() then n + 1 else n);
      }
    }
  }

  lemma {:induction false} CountAppend(xs: seq<string>, ys: seq<string>, kind: LineKind)
    ensures CountExcept(xs + ys, kind) == CountExcept(xs, kind) + CountExcept(ys, kind)
  {
    if xs == [] {
      assert xs + ys == ys;
    } else {
      assert (xs + ys)[1..] == xs[1..] + ys;
      CountAppend(xs[1..], ys, kind);
    }
  }

  /** One printed line, with its marker if it has one. */
  function PrintEntry(line: DiffLine, marked: bool): seq<string> {
    [PrintLine(line)] + (if marked then [MARKER] else [])
  }

  lemma EntryCount(line: DiffLine, marked: bool, kind: LineKind)
    ensures CountExcept(PrintEntry(line, marked), kind) == if line.kind != kind then 1 else 0
  {
    var entry := PrintEntry(line, marked);
    assert entry[1..] == if marked then [MARKER] else [];
    assert !IsBodyLine(MARKER) && [MARKER][1..] == [];
    assert CountExcept(entry[1..], kind) == 0;
    assert IsBodyLine(PrintLine(line)) && BodyKind(PrintLine(line)) == line.kind;
  }

  lemma {:induction false} PrintedCount(lines: seq<DiffLine>, marks: set<nat>, base: nat, kind: LineKind)
    ensures CountExcept(PrintBody(lines, marks, base), kind) == SideLength(lines, kind)
    decreases |lines|
  {
    hide CountExcept, PrintEntry;
    if lines == [] {
      EmptyCount(kind);
    } else {
      var n := |lines| - 1;
      PrintedCount(lines[..n], marks, base, kind);
      PrintBodyLast(lines, marks, base);
      EntryCount(lines[n], base + n in marks, kind);
      CountAppend(PrintBody(lines[..n], marks, base), PrintEntry(lines[n], base + n in marks), kind);
    }
  }

  lemma EmptyCount(kind: LineKind)
    ensures CountExcept([], kind) == 0
  {
  }

  lemma PrintBodyLast(lines: seq<DiffLine>, marks: set<nat>, base: nat)
    requires lines != []
    ensures PrintBody(lines, marks, base) ==
            PrintBody(lines[..|lines| - 1], marks, base) + PrintEntry(lines[|lines| - 1], base + |lines| - 1 in marks)
  {
  }

  /** The builder of `file` after its first `k` lines and the markers after them. */
  function At(file: FileDiff, k: nat, hunks: seq<Hunk>): (r: FileDiff)
    requires k <= |file.lines|
    ensures r.hunks == hunks && r.lines == file.lines[..k] && r.path == file.path
  {
    var o := file.oldNoNewline && LastOnSide(file.lines, Added) <= k;
    var n := file.newNoNewline && LastOnSide(file.lines, Removed) <= k;
    FileDiff(file.path, file.oldPath, file.newPath, file.lines[..k], hunks, o, n,
             if o then file.oldNoNewlineLine else None, if n then file.newNoNewlineLine else None)
  }

  lemma EntryMeaning(file: FileDiff, k: nat, hunks: seq<Hunk>, o: nat, n: nat)
    requires MarksOk(file) && k < |file.lines| && hunks != []
    requires file.lines[k].oldLine == if file.lines[k].OnOldSide() then Some(o) else None
    requires file.lines[k].newLine == if file.lines[k].OnNewSide() then Some(n) else None
    ensures BodyMeaning(At(file, k, hunks), PrintEntry(file.lines[k], k in Marks(file)), o, n) ==
            Ok(At(file, k + 1, Extended(hunks, [file.lines[k]])))
  {
    hide LastOnSide, CountExcept, HunkHeader;
    var line := file.lines[k];
    var text := PrintLine(line);
    assert NumberedLine(text, o, n) == line;
    var entry := PrintEntry(line, k in Marks(file));
    var appended := AppendLine(At(file, k, hunks), line);
    assert appended.lines == file.lines[..k + 1];
    LastBounds(file.lines, k);
    assert entry[1..] == if k in Marks(file) then [MARKER] else [];
    assert !IsBodyLine(MARKER);
    MarkerMeaning(appended);
    if k !in Marks(file) {
      assert entry == [text];
    }
  }

  lemma MarkerMeaning(file: FileDiff)
    requires file.hunks != []
    ensures forall o, n :: BodyMeaning(file, [MARKER], o, n) == RecordMarker(file)
    ensures forall o, n :: BodyMeaning(file, [], o, n) == Ok(file)
  {
  }

  lemma LastBounds(lines: seq<DiffLine>, k: nat)
    requires k < |lines|
    ensures lines[k].OnOldSide() ==> LastOnSide(lines, Added) > k
    ensures lines[k].OnNewSide() ==> LastOnSide(lines, Removed) > k
  {
  }

  /** The last hunk of a builder with more lines. */
  function Extended(hunks: seq<Hunk>, lines: seq<DiffLine>): (r: seq<Hunk>)
    requires hunks != []
    ensures |r| == |hunks|
  {
    var last := |hunks| - 1;
    hunks[last := hunks[last].(lines := hunks[last].lines + lines)]
  }

  lemma ExtendedTwice(hunks: seq<Hunk>, first: seq<DiffLine>, second: seq<DiffLine>)
    requires hunks != []
    ensures Extended(hunks, []) == hunks
    ensures Extended(Extended(hunks, first), second) == Extended(hunks, first + second)
  {
    var last := |hunks| - 1;
    assert hunks[last].lines + [] == hunks[last].lines;
    assert hunks[last].lines + first + second == hunks[last].lines + (first + second);
  }

  /** The last line carries the numbers its place gives it, and the lines before it do. */
  lemma NumberedLast(lines: seq<DiffLine>, o: nat, n: nat)
    requires NumberedFrom(lines, o, n) && lines != []
    ensures NumberedFrom(lines[..|lines| - 1], o, n)
    ensures NumberedAfter(lines[|lines| - 1], lines[..|lines| - 1], o, n)
  {
    hide SideLength;
    var before := lines[..|lines| - 1];
    assert forall i :: 0 <= i < |before| ==> before[..i] == lines[..i];
  }

  /** Reading a printed body rebuilds its lines and their markers. */
  lemma {:induction false} BodyReadBack(file: FileDiff, base: nat, hunks: seq<Hunk>, lines: seq<DiffLine>, o: nat,
      n: nat)
    requires MarksOk(file) && hunks != [] && base + |lines| <= |file.lines|
    requires lines == file.lines[base..base + |lines|]
    requires NumberedFrom(lines, o, n)
    ensures BodyMeaning(At(file, base, hunks), PrintBody(lines, Marks(file), base), o, n) ==
            Ok(At(file, base + |lines|, Extended(hunks, lines)))
    decreases |lines|
  {
    hide LastOnSide, Marks, MarksOk, PrintEntry, BodyMeaning, At, Extended, NumberedFrom, SideLength, CountExcept;
    ExtendedTwice(hunks, [], []);
    if lines == [] {
      MarkerMeaning(At(file, base, hunks));
    } else {
      var k := |lines| - 1;
      var before, line, marks := lines[..k], lines[k], Marks(file);
      NumberedLast(lines, o, n);
      BodyReadBack(file, base, hunks, before, o, n);
      PrintBodyLast(lines, marks, base);
      BodyMeaningAppend(At(file, base, hunks), PrintBody(before, marks, base), PrintEntry(line, base + k in marks), o, n);
      PrintedCount(before, marks, base, Added);
      PrintedCount(before, marks, base, Removed);
      EntryMeaning(file, base + k, Extended(hunks, before), o + SideLength(before, Added), n + SideLength(before, Removed));
      ExtendedTwice(hunks, before, [line]);
      assert before + [line] == lines;
    }
  }

  /** The body and trailing marker of a printed hunk, together. */
  function WholeBody(hunk: HunkTree): seq<string> {
    hunk.body + (if hunk.trailing then [MARKER] else [])
  }

  lemma PrintedHunkBody(hunk: Hunk, marks: set<nat>, base: nat)
    requires HunkShape(hunk)
    ensures var tree := PrintHunk(hunk, marks, base);
            WholeBody(tree) == PrintBody(hunk.lines, marks, base) && BodyOf(tree.body, hunk.oldCount, hunk.newCount)
  {
    hide CountExcept, SideLength, NumberedFrom, HunkHeader, PrintEntry;
    var tree := PrintHunk(hunk, marks, base);
    forall kind: LineKind ensures CountExcept(tree.body, kind) == SideLength(hunk.lines, kind) {
      PrintedCount(hunk.lines, marks, base, kind);
      if hunk.lines != [] {
        var n := |hunk.lines| - 1;
        PrintBodyLast(hunk.lines, marks, base);
        EntryCount(hunk.lines[n], base + n in marks, kind);
        EntryCount(hunk.lines[n], false, kind);
        var front := PrintBody(hunk.lines[..n], marks, base);
        CountAppend(front, PrintEntry(hunk.lines[n], base + n in marks), kind);
        CountAppend(front, PrintEntry(hunk.lines[n], false), kind);
        EntryText(hunk.lines[n]);
      }
    }
    if hunk.lines != [] {
      PrintBodyLast(hunk.lines, marks, base);
      EntryText(hunk.lines[|hunk.lines| - 1]);
      PrintedBodyLines(hunk.lines[..|hunk.lines| - 1], marks, base);
    }
  }

  lemma EntryText(line: DiffLine)
    ensures PrintEntry(line, false) == [PrintLine(line)] && PrintEntry(line, true) == [PrintLine(line), MARKER]
    ensures IsBodyLine(PrintLine(line)) && PrintLine(line) != MARKER
  {
  }

  lemma {:induction false} PrintedBodyLines(lines: seq<DiffLine>, marks: set<nat>, base: nat)
    ensures forall text :: text in PrintBody(lines, marks, base) ==>
              text == MARKER || (IsBodyLine(text) && exists line :: line in lines && text == PrintLine(line))
    decreases |lines|
  {
    if lines != [] {
      var n := |lines| - 1;
      PrintedBodyLines(lines[..n], marks, base);
      EntryText(lines[n]);
      forall text | text in PrintBody(lines, marks, base)
        ensures text == MARKER || (IsBodyLine(text) && exists line :: line in lines && text == PrintLine(line))
      {
        if text == PrintLine(lines[n]) {
          assert lines[n] in lines;
        } else if text != MARKER {
          assert text in PrintBody(lines[..n], marks, base);
          var line :| line in lines[..n] && text == PrintLine(line);
          assert line in lines;
        }
      }
    }
  }

  /** Reading a printed hunk appends it to the builder. */
  lemma HunkReadBack(file: FileDiff, base: nat, hunks: seq<Hunk>, hunk: Hunk)
    requires MarksOk(file) && HunkShape(hunk) && HunkNumbersOk(hunk)
    requires base + |hunk.lines| <= |file.lines| && hunk.lines == file.lines[base..base + |hunk.lines|]
    ensures HunkDerives(PrintHunk(hunk, Marks(file), base))
    ensures HunkMeaning(At(file, base, hunks), PrintHunk(hunk, Marks(file), base)) ==
            Ok(At(file, base + |hunk.lines|, hunks + [hunk]))
  {
    hide LastOnSide, Marks, MarksOk, BodyMeaning, BodyOf, NumberedFrom, SideLength, PrintBody, OpenHunk, HunkHeader,
        At, Extended, AppendHunk, WholeBody, RecordMarker;
    var tree := PrintHunk(hunk, Marks(file), base);
    var head := hunk.(lines := []);
    ReadPrintedHeader(hunk);
    HeaderStart(hunk);
    PrintedHunkBody(hunk, Marks(file), base);
    BuilderWithHunk(file, base, hunks, hunk);
    BodyReadBack(file, base, hunks + [head], hunk.lines, hunk.oldStart, hunk.newStart);
    BodyThenMarker(At(file, base, hunks + [head]), tree, hunk.oldStart, hunk.newStart);
  }

  /** An empty hunk is appended, and then filled. */
  lemma BuilderWithHunk(file: FileDiff, base: nat, hunks: seq<Hunk>, hunk: Hunk)
    requires base <= |file.lines|
    ensures var head := hunk.(lines := []);
            && AppendHunk(At(file, base, hunks), head) == At(file, base, hunks + [head])
            && Extended(hunks + [head], hunk.lines) == hunks + [hunk]
  {
    hide LastOnSide;
    assert [] + hunk.lines == hunk.lines;
    assert (hunks + [hunk.(lines := [])])[|hunks| := hunk] == hunks + [hunk];
  }

  /** Reading a body and then its marker is reading both. */
  lemma BodyThenMarker(start: FileDiff, tree: HunkTree, o: nat, n: nat)
    requires start.hunks != [] && BodyMeaning(start, WholeBody(tree), o, n).Ok?
    ensures var read := BodyMeaning(start, tree.body, o, n);
            && read.Ok?
            && (if tree.trailing then RecordMarker(read.value) else read) == BodyMeaning(start, WholeBody(tree), o, n)
  {
    hide BodyMeaning, RecordMarker, CountExcept;
    BodyMeaningAppend(start, tree.body, if tree.trailing then [MARKER] else [], o, n);
    var read := BodyMeaning(start, tree.body, o, n);
    if read.Ok? {
      MarkerMeaning(read.value);
    }
  }

  lemma HeaderStart(hunk: Hunk)
    ensures "@@" <= HunkHeader(hunk)
  {
    hide Decimal;
  }

  // ---------------------------------------------------------------- files read back

  lemma {:induction false} HunkLinesSlice(hunks: seq<Hunk>, h: nat)
    requires h < |hunks|
    ensures var base := |HunkLines(hunks[..h])|;
            && base + |hunks[h].lines| <= |HunkLines(hunks)|
            && HunkLines(hunks)[base..base + |hunks[h].lines|] == hunks[h].lines
            && |HunkLines(hunks[..h + 1])| == base + |hunks[h].lines|
    decreases |hunks|
  {
    var n := |hunks| - 1;
    assert hunks[..h + 1][..h] == hunks[..h];
    if h < n {
      HunkLinesSlice(hunks[..n], h);
      assert hunks[..n][..h] == hunks[..h] && hunks[..n][..h + 1] == hunks[..h + 1];
    } else {
      assert hunks[..h + 1] == hunks;
    }
  }

  lemma {:induction false} SectionsReadBack(file: FileDiff, h: nat)
    requires MarksOk(file) && FileShape(file) && h <= |file.hunks|
    requires forall hunk :: hunk in file.hunks ==> HunkNumbersOk(hunk)
    requires |HunkLines(file.hunks[..h])| <= |file.lines|
    ensures var base := |HunkLines(file.hunks[..h])|;
            var sections := PrintHunks(file.hunks[h..], Marks(file), base);
            && SectionsMeaning(At(file, base, file.hunks[..h]), sections) == Ok(At(file, |file.lines|, file.hunks))
            && (forall section :: section in sections ==> section.HunkSection? && HunkDerives(section.hunk))
    decreases |file.hunks| - h
  {
    hide LastOnSide, Marks, MarksOk, PrintHunk, HunkMeaning, HunkDerives, HunkShape, HunkNumbersOk, HunkLines, At,
        CleanLines;
    var base := |HunkLines(file.hunks[..h])|;
    if h == |file.hunks| {
      assert file.hunks[..h] == file.hunks;
    } else {
      var hunk := file.hunks[h];
      assert hunk in file.hunks;
      HunkLinesSlice(file.hunks, h);
      HunkReadBack(file, base, file.hunks[..h], hunk);
      SectionsReadBack(file, h + 1);
      assert file.hunks[..h] + [hunk] == file.hunks[..h + 1];
      assert file.hunks[h..][1..] == file.hunks[h + 1..];
    }
  }

  lemma AtEnds(file: FileDiff)
    requires MarksOk(file)
    ensures At(file, 0, []) == Blank(file) && At(file, |file.lines|, file.hunks) == file
  {
    assert file.lines[..|file.lines|] == file.lines;
  }

  lemma FileReadBack(rules: PathRules, file: FileDiff)
    requires Printable(rules, file)
    ensures FileDerives(rules, PrintFile(file))
    ensures OpenFile(rules, PrintFile(file).oldHeader, PrintFile(file).newHeader) == Ok(Blank(file))
    ensures SectionsMeaning(Blank(file), PrintFile(file).sections) == Ok(file)
    ensures !SectionsIgnored(PrintFile(file).sections)
  {
    hide LastOnSide, Marks, MarksOk, HunkDerives, HunkShape, HunkNumbersOk, At, CleanLines, ValidPath, OpenFile,
        SectionsMeaning;
    ReadPrintedFileHeaders(rules, file);
    assert file.hunks[..0] == [] && file.hunks[0..] == file.hunks;
    SectionsReadBack(file, 0);
    AtEnds(file);
    var sections := PrintFile(file).sections;
    assert sections[0] in sections;
  }

  lemma {:induction false} FilesReadBack(rules: PathRules, files: seq<FileDiff>, identities: set<string>)
    requires forall file :: file in files ==> Printable(rules, file)
    requires FoldDistinctPaths(rules, files)
    requires forall file :: file in files ==> rules.fold(file.path) !in identities
    ensures var trees := PrintFiles(files);
            && |trees| == |files|
            && (forall tree :: tree in trees ==> FileDerives(rules, tree) && !SectionsIgnored(tree.sections))
            && FilesMeaning(rules, trees, identities) == Ok(files)
    decreases |files|
  {
    hide Printable, PrintFile, FileDerives, SectionsIgnored, SectionsMeaning, OpenFile;
    if files != [] {
      var file := files[0];
      assert file in files;
      FileReadBack(rules, file);
      var identity := rules.fold(file.path);
      forall other | other in files[1..] ensures rules.fold(other.path) !in identities + {identity} {
        var i :| 1 <= i < |files| && files[i] == other;
        assert files[i] in files;
      }
      FilesReadBack(rules, files[1..], identities + {identity});
      var trees := PrintFiles(files);
      assert trees[1..] == PrintFiles(files[1..]);
      assert [file] + files[1..] == files;
    }
  }

  // ---------------------------------------------------------------- text read back

  /** A last blank line changes nothing. */
  lemma {:induction false} BlankLastLine(rules: PathRules, s: Reader, lines: seq<string>)
    requires s.Valid() && Run(rules, s, lines).Ok?
    ensures Run(rules, s, lines + [""]) == Run(rules, s, lines)
    decreases |lines|, if s.counters.Some? then 1 else 0
  {
    hide ReadInside, ReadFileHeaders, ReadMarker, OpenHunk;
    var more := lines + [""];
    if lines == [] {
      assert more[1..] == [];
      var closed := s.(counters := None);
      assert Run(rules, closed, more) == Run(rules, closed, []);
    } else {
      assert more[0] == lines[0] && more[1..] == lines[1..] + [""];
      if s.counters.Some? {
        if s.counters.value.Exhausted() {
          if lines[0] == MARKER {
            BlankLastLine(rules, ReadMarker(s).value.(counters := None), lines[1..]);
          } else {
            BlankLastLine(rules, s.(counters := None), lines);
          }
        } else {
          BlankLastLine(rules, ReadInside(s, lines[0]).value, lines[1..]);
        }
      } else if "--- " <= lines[0] {
        assert more[1] == lines[1] && more[2..] == lines[2..] + [""];
        BlankLastLine(rules, ReadFileHeaders(rules, s, lines[0], lines[1]).value, lines[2..]);
      } else {
        BlankLastLine(rules, ReadOutside(s, lines[0]).value, lines[1..]);
      }
    }
  }

  predicate AllClean(lines: seq<string>) {
    forall line :: line in lines ==> CleanContent(line)
  }

  lemma CleanDigits(s: string)
    requires AllDigits(s)
    ensures CleanContent(s)
  {
  }

  lemma CleanJoin(a: string, b: string)
    requires CleanContent(a) && CleanContent(b)
    ensures CleanContent(a + b)
  {
  }

  lemma CleanHeader(hunk: Hunk)
    ensures CleanContent(HunkHeader(hunk))
  {
    hide Decimal, CleanContent, AllDigits;
    var a, b, c, d := Decimal(hunk.oldStart), Decimal(hunk.oldCount), Decimal(hunk.newStart), Decimal(hunk.newCount);
    CleanDigits(a);
    CleanDigits(b);
    CleanDigits(c);
    CleanDigits(d);
    CleanLiterals();
    CleanJoin("@@ -", a);
    CleanJoin("@@ -" + a, ",");
    CleanJoin("@@ -" + a + ",", b);
    CleanJoin("@@ -" + a + "," + b, " +");
    CleanJoin("@@ -" + a + "," + b + " +", c);
    CleanJoin("@@ -" + a + "," + b + " +" + c, ",");
    CleanJoin("@@ -" + a + "," + b + " +" + c + ",", d);
    CleanJoin("@@ -" + a + "," + b + " +" + c + "," + d, " @@");
  }

  predicate CleanCharacter(c: char) {
    c != '\0' && c != '\r' && c != '\n'
  }

  /** A text is clean when its characters are. */
  lemma CleanText(text: string)
    requires forall i :: 0 <= i < |text| ==> CleanCharacter(text[i])
    ensures CleanContent(text)
  {
  }

  lemma CleanLiterals()
    ensures CleanContent("@@ -") && CleanContent(",") && CleanContent(" +") && CleanContent(" @@")
    ensures CleanContent("--- ") && CleanContent("+++ ") && CleanContent("/dev/null") && CleanContent("a/") && CleanContent("b/")
    ensures CleanContent(MARKER) && CleanContent("")
  {
    hide CleanContent;
    CleanText("@@ -");
    CleanText(",");
    CleanText(" +");
    CleanText(" @@");
    CleanText("--- ");
    CleanText("+++ ");
    CleanText("/dev/null");
    CleanText("a/");
    CleanText("b/");
    CleanText(MARKER);
    CleanText("");
  }

  lemma CleanPrintLine(line: DiffLine)
    requires CleanContent(line.content)
    ensures CleanContent(PrintLine(line))
  {
  }

  lemma CleanHunk(hunk: Hunk, marks: set<nat>, base: nat)
    requires CleanLines(hunk.lines)
    ensures AllClean(HunkText(PrintHunk(hunk, marks, base)))
  {
    hide HunkHeader, CleanContent, PrintBody, IsBodyLine, PrintLine;
    CleanHeader(hunk);
    CleanLiterals();
    if hunk.lines != [] {
      var n := |hunk.lines| - 1;
      PrintedBodyLines(hunk.lines[..n], marks, base);
      forall text | text in PrintBody(hunk.lines[..n], marks, base) && text != MARKER ensures CleanContent(text) {
        var line :| line in hunk.lines[..n] && text == PrintLine(line);
        assert line in hunk.lines;
        CleanPrintLine(line);
      }
      assert hunk.lines[n] in hunk.lines;
      CleanPrintLine(hunk.lines[n]);
    }
  }

  lemma {:induction false} CleanHunks(hunks: seq<Hunk>, marks: set<nat>, base: nat)
    requires forall hunk :: hunk in hunks ==> CleanLines(hunk.lines)
    ensures AllClean(SectionsText(PrintHunks(hunks, marks, base)))
    decreases |hunks|
  {
    hide PrintHunk, HunkText, CleanContent, CleanLines;
    if hunks != [] {
      assert hunks[0] in hunks;
      CleanHunk(hunks[0], marks, base);
      CleanHunks(hunks[1..], marks, base + |hunks[0].lines|);
      var sections := PrintHunks(hunks, marks, base);
      assert sections[1..] == PrintHunks(hunks[1..], marks, base + |hunks[0].lines|);
    }
  }

  lemma CleanFile(rules: PathRules, file: FileDiff)
    requires Printable(rules, file)
    ensures AllClean([PrintFile(file).oldHeader, PrintFile(file).newHeader] + SectionsText(PrintFile(file).sections))
  {
    hide HunkLines, PrintHunks, SectionsText, HunkShape, HunkNumbersOk, MarksOk, Marks, ValidPath, CleanContent;
    forall hunk | hunk in file.hunks ensures CleanLines(hunk.lines) {
      forall line | line in hunk.lines ensures CleanContent(line.content) {
        HunkLineIn(file.hunks, hunk, line);
      }
    }
    CleanHunks(file.hunks, Marks(file), 0);
    CleanPath(rules, file.path);
    CleanLiterals();
    CleanJoin("a/", file.path);
    CleanJoin("b/", file.path);
    CleanJoin("--- ", "/dev/null");
    CleanJoin("+++ ", "/dev/null");
    CleanJoin("--- ", "a/" + file.path);
    CleanJoin("+++ ", "b/" + file.path);
  }

  lemma {:induction false} CleanFiles(rules: PathRules, files: seq<FileDiff>)
    requires forall file :: file in files ==> Printable(rules, file)
    ensures AllClean(FilesText(PrintFiles(files)))
    decreases |files|
  {
    hide PrintFile, SectionsText, CleanContent, Printable;
    if files != [] {
      assert files[0] in files;
      CleanFile(rules, files[0]);
      CleanFiles(rules, files[1..]);
      var trees := PrintFiles(files);
      assert trees[1..] == PrintFiles(files[1..]);
    }
  }

  lemma CleanPath(rules: PathRules, path: string)
    requires ValidPath(rules, path)
    ensures CleanContent(path)
  {
    assert ControlCharacter('\0') && ControlCharacter('\r') && ControlCharacter('\n');
  }

  /** Reading a printed diff gives back exactly the files that were printed. */
  lemma PrintRoundTrip(rules: PathRules, files: seq<FileDiff>)
    requires files != []
    requires forall file :: file in files ==> Printable(rules, file)
    requires FoldDistinctPaths(rules, files)
    ensures Parse(rules, Print(files)) == Ok(ParsedDiff(Print(files), files, false))
  {
    hide Printable, Run, FilesText, FileDerives, SectionsIgnored, FilesMeaning, PrintFiles;
    var tree := DiffTree([], PrintFiles(files));
    FilesReadBack(rules, files, {});
    ReaderAcceptsDerivation(rules, tree);
    var lines := FilesText(PrintFiles(files));
    assert TreeText(tree) == lines;
    BlankLastLine(rules, START, lines);
    CleanFiles(rules, files);
    CleanLinesText(lines);
  }

  /** A file the reader returned can be printed exactly when its markers follow its last lines. */
  lemma ParsedPrintable(rules: PathRules, text: string, file: FileDiff)
    requires Parse(rules, text).Ok? && file in Parse(rules, text).value.files
    ensures Printable(rules, file) <==> MarksOk(file)
  {
    hide Parse, FileShape, ValidPath, MarksOk, MarkedLines, HunkNumbersOk;
    ParsedShape(rules, text);
    ParsedHeads(rules, text);
    assert HeadOk(rules, file);
  }

  /** Parsing, printing and parsing again. */
  lemma ParsePrintParse(rules: PathRules, text: string)
    requires Parse(rules, text).Ok?
    requires forall file :: file in Parse(rules, text).value.files ==> MarksOk(file)
    ensures var files := Parse(rules, text).value.files;
            Parse(rules, Print(files)) == Ok(ParsedDiff(Print(files), files, false))
  {
    hide Parse, MarksOk, Printable, Print;
    var files := Parse(rules, text).value.files;
    forall file | file in files ensures Printable(rules, file) {
      ParsedPrintable(rules, text, file);
    }
    ParsedShape(rules, text);
    ParsedPathsDistinct(rules, text);
    PrintRoundTrip(rules, files);
  }

  lemma CleanJoinChars(lines: seq<string>, c: char)
    requires AllClean(lines) && c in Join(lines, "\n")
    ensures c != '\r' && c != '\0'
  {
    hide Join;
    JoinChars(lines, "\n", c);
    if c !in "\n" {
      var i :| 0 <= i < |lines| && c in lines[i];
      assert lines[i] in lines;
    }
  }

  lemma CleanLinesText(lines: seq<string>)
    requires AllClean(lines)
    ensures var text := Join(lines + [""], "\n");
            '\0' !in text && NormalizeNewlines(text) == text && Split(text) == lines + [""]
  {
    hide Join, Split, NormalizeNewlines;
    var all := lines + [""];
    assert AllClean(all);
    var text := Join(all, "\n");
    forall c | c in text ensures c != '\r' && c != '\0' {
      CleanJoinChars(all, c);
    }
    NormalizeIdentity(text);
    forall line | line in all ensures '\n' !in line {
      assert CleanContent(line);
    }
    SplitJoin(all);
  }
}
