/**
 A recursive grammar of unified diffs, what its derivation trees mean, and the proof
 that the flat counter-driven reader accepts exactly the texts the grammar derives
 and returns the meaning of the derivation (app/agent/patches.py:241-357).
 */
module DiffGrammar {
  import opened Wrappers
  import opened UnifiedDiff

  /** A hunk header, the lines up to the one that uses up its counts, and an optional last marker. */
  datatype HunkTree = HunkTree(header: string, body: seq<string>, trailing: bool)

  datatype Section = Prose(line: string) | HunkSection(hunk: HunkTree)

  datatype FileTree = FileTree(oldHeader: string, newHeader: string, sections: seq<Section>)

  datatype DiffTree = DiffTree(preamble: seq<string>, files: seq<FileTree>)

  // ---------------------------------------------------------------- the text of a tree

  function HunkText(hunk: HunkTree): seq<string> {
    [hunk.header] + hunk.body + (if hunk.trailing then [MARKER] else [])
  }

  function SectionsText(sections: seq<Section>): seq<string> {
    if sections == [] then []
    else
      (match sections[0] case Prose(line) => [line] case HunkSection(hunk) => HunkText(hunk)) +
      SectionsText(sections[1..])
  }

  function FilesText(files: seq<FileTree>): seq<string> {
    if files == [] then []
    else [files[0].oldHeader, files[0].newHeader] + SectionsText(files[0].sections) + FilesText(files[1..])
  }

  function TreeText(tree: DiffTree): seq<string> {
    tree.preamble + FilesText(tree.files)
  }

  // ---------------------------------------------------------------- the grammar

  /** Body lines that are not of the given kind: Added leaves the old side, Removed the new side. */
  function CountExcept(body: seq<string>, kind: LineKind): nat {
    if body == [] then 0
    else (if IsBodyLine(body[0]) && BodyKind(body[0]) != kind then 1 else 0) + CountExcept(body[1..], kind)
  }

  /** The body uses up exactly the two counts, and does so with its last line. */
  predicate BodyOf(body: seq<string>, oldCount: nat, newCount: nat) {
    && (forall line :: line in body ==> IsBodyLine(line) || line == MARKER)
    && CountExcept(body, Added) == oldCount
    && CountExcept(body, Removed) == newCount
    && (body != [] ==> body[|body| - 1] != MARKER)
  }

  predicate HunkDerives(hunk: HunkTree) {
    && "@@" <= hunk.header
    && OpenHunk(hunk.header).Ok?
    && BodyOf(hunk.body, OpenHunk(hunk.header).value.oldCount, OpenHunk(hunk.header).value.newCount)
  }

  predicate SectionDerives(section: Section) {
    match section
    case Prose(line) => IsProse(line)
    case HunkSection(hunk) => HunkDerives(hunk)
  }

  predicate FileDerives(rules: PathRules, file: FileTree) {
    && "--- " <= file.oldHeader
    && "+++ " <= file.newHeader
    && OpenFile(rules, file.oldHeader, file.newHeader).Ok?
    && (forall section :: section in file.sections ==> SectionDerives(section))
    && (exists section :: section in file.sections && section.HunkSection?)
  }

  predicate Derives(rules: PathRules, tree: DiffTree) {
    && tree.files != []
    && (forall line :: line in tree.preamble ==> IsProse(line))
    && (forall file :: file in tree.files ==> FileDerives(rules, file))
  }

  // ---------------------------------------------------------------- meaning

  /** Number the lines of a body from the given coordinates; markers mark the file's last line. */
  function BodyMeaning(file: FileDiff, body: seq<string>, oldLine: nat, newLine: nat): (r: Result<FileDiff, DiffError>)
    requires file.hunks != []
    ensures r.Ok? ==> r.value.hunks != [] && r.value.path == file.path
    decreases |body|
  {
    if body == [] then Ok(file)
    else if !IsBodyLine(body[0]) then
      var marked :- RecordMarker(file);
      BodyMeaning(marked, body[1..], oldLine, newLine)
    else
      var line := NumberedLine(body[0], oldLine, newLine);
      BodyMeaning(AppendLine(file, line), body[1..],
                  if line.OnOldSide() then oldLine + 1 else oldLine,
                  if line.OnNewSide() then newLine + 1 else newLine)
  }

  function HunkMeaning(file: FileDiff, hunk: HunkTree): (r: Result<FileDiff, DiffError>)
    ensures r.Ok? ==> r.value.hunks != [] && r.value.path == file.path
  {
    var start :- OpenHunk(hunk.header);
    var read :- BodyMeaning(AppendHunk(file, start), hunk.body, start.oldStart, start.newStart);
    if hunk.trailing then RecordMarker(read) else Ok(read)
  }

  function SectionsMeaning(file: FileDiff, sections: seq<Section>): Result<FileDiff, DiffError>
    decreases |sections|
  {
    if sections == [] then Ok(file)
    else match sections[0]
      case Prose(_) => SectionsMeaning(file, sections[1..])
      case HunkSection(hunk) =>
        var read :- HunkMeaning(file, hunk);
        SectionsMeaning(read, sections[1..])
  }

  /** The files in order; their paths differ from each other, and from `identities`, under case folding. */
  function FilesMeaning(rules: PathRules, files: seq<FileTree>,
      identities: set<string>): Result<seq<FileDiff>, DiffError>
    requires forall file :: file in files ==> FileDerives(rules, file)
    decreases |files|
  {
    if files == [] then Ok([])
    else
      assert files[0] in files && FileDerives(rules, files[0]);
      var start := OpenFile(rules, files[0].oldHeader, files[0].newHeader).value;
      var identity := rules.fold(start.path);
      if identity in identities then Err(DuplicateIdentity)
      else
        var first :- SectionsMeaning(start, files[0].sections);
        var rest :- FilesMeaning(rules, files[1..], identities + {identity});
        Ok([first] + rest)
  }

  predicate SectionsIgnored(sections: seq<Section>) {
    exists section :: section in sections && section.Prose? && section.line != ""
  }

  predicate TreeIgnored(tree: DiffTree) {
    || (exists line :: line in tree.preamble && line != "")
    || (exists file :: file in tree.files && SectionsIgnored(file.sections))
  }

  /** What a derivation stands for. */
  function Meaning(rules: PathRules, tree: DiffTree): Result<Contents, DiffError>
    requires Derives(rules, tree)
  {
    var files :- FilesMeaning(rules, tree.files, {});
    Ok(Contents(files, TreeIgnored(tree)))
  }

  // ---------------------------------------------------------------- derivation => reader

  /** A reader state with the current file replaced and the counters set. */
  function Moved(s: Reader, file: FileDiff, counters: Option<Counters>): Reader
    requires s.files != []
  {
    s.WithCurrent(file).(counters := counters)
  }

  lemma MovedTwice(s: Reader, first: FileDiff, c: Option<Counters>, second: FileDiff, d: Option<Counters>)
    requires s.files != []
    ensures Moved(Moved(s, first, c), second, d) == Moved(s, second, d)
  {
    assert Moved(Moved(s, first, c), second, d).files == Moved(s, second, d).files;
  }

  lemma MovedNowhere(s: Reader)
    requires s.files != []
    ensures Moved(s, s.Current(), s.counters) == s
  {
    assert Moved(s, s.Current(), s.counters).files == s.files;
  }

  /** Ignored lines and hunk headers are none of the file header forms. */
  lemma NoFileHeader(line: string)
    requires IsProse(line) || "@@" <= line
    ensures !("--- " <= line) && !("---" <= line) && !("+++" <= line)
  {
    if "@@" <= line {
      assert line[0] == '@';
    }
  }

  lemma StepEnd(rules: PathRules, s: Reader)
    requires s.Valid()
    ensures Run(rules, s, []) == Finish(s)
  {
  }

  lemma StepInside(rules: PathRules, s: Reader, line: string, rest: seq<string>)
    requires s.Valid() && s.counters.Some? && !s.counters.value.Exhausted() && ReadInside(s, line).Ok?
    ensures Run(rules, s, [line] + rest) == Run(rules, ReadInside(s, line).value, rest)
  {
    assert ([line] + rest)[1..] == rest;
  }

  lemma StepOutside(rules: PathRules, s: Reader, line: string, rest: seq<string>)
    requires s.Valid() && s.counters.None? && !("--- " <= line) && ReadOutside(s, line).Ok?
    ensures Run(rules, s, [line] + rest) == Run(rules, ReadOutside(s, line).value, rest)
  {
    assert ([line] + rest)[1..] == rest;
  }

  lemma StepLastMarker(rules: PathRules, s: Reader, rest: seq<string>)
    requires s.Valid() && s.counters.Some? && s.counters.value.Exhausted() && ReadMarker(s).Ok?
    ensures Run(rules, s, [MARKER] + rest) == Run(rules, ReadMarker(s).value.(counters := None), rest)
  {
    assert ([MARKER] + rest)[1..] == rest;
  }

  lemma StepFile(rules: PathRules, s: Reader, oldHeader: string, newHeader: string, rest: seq<string>)
    requires s.Valid() && s.counters.None?
    requires s.files != [] ==> s.Current().hunks != []
    requires "--- " <= oldHeader && "+++ " <= newHeader && ReadFileHeaders(rules, s, oldHeader, newHeader).Ok?
    ensures Run(rules, s, [oldHeader, newHeader] + rest) ==
            Run(rules, ReadFileHeaders(rules, s, oldHeader, newHeader).value, rest)
  {
    var lines := [oldHeader, newHeader] + rest;
    assert lines[0] == oldHeader && lines[1] == newHeader && lines[2..] == rest;
  }

  /** Counters after a body that used them up. */
  function Spent(c: Counters): Counters {
    Counters(0, 0, c.oldLine + c.oldLeft, c.newLine + c.newLeft)
  }

  lemma BodyTail(body: seq<string>, oldCount: nat, newCount: nat)
    requires body != [] && BodyOf(body, oldCount, newCount)
    ensures oldCount + newCount > 0
    ensures body[0] == MARKER ==> BodyOf(body[1..], oldCount, newCount)
    ensures IsBodyLine(body[0]) ==>
              var o, n := if BodyKind(body[0]) == Added then 0 else 1, if BodyKind(body[0]) == Removed then 0 else 1;
              o <= oldCount && n <= newCount && BodyOf(body[1..], oldCount - o, newCount - n)
    ensures IsBodyLine(body[0]) <==> body[0] != MARKER
  {
    assert body[0] in body;
    CountsPositive(body);
    assert forall line :: line in body[1..] ==> line in body;
    if |body| > 1 {
      assert body[1..][|body| - 2] == body[|body| - 1];
    }
  }

  /** One line of a body moves the reader as it moves the meaning. */
  lemma BodyStep(s: Reader, body: seq<string>)
    requires s.Valid() && s.counters.Some? && body != []
    requires BodyOf(body, s.counters.value.oldLeft, s.counters.value.newLeft)
    requires BodyMeaning(s.Current(), body, s.counters.value.oldLine, s.counters.value.newLine).Ok?
    ensures !s.counters.value.Exhausted()
    ensures ReadInside(s, body[0]).Ok?
    ensures var next := ReadInside(s, body[0]).value;
            var c, d := s.counters.value, next.counters.value;
            && next == Moved(s, next.Current(), Some(d))
            && Spent(d) == Spent(c)
            && BodyOf(body[1..], d.oldLeft, d.newLeft)
            && BodyMeaning(next.Current(), body[1..], d.oldLine, d.newLine) == BodyMeaning(s.Current(), body, c.oldLine, c.newLine)
  {
    hide Run, BodyOf, RecordMarker, AppendLine;
    BodyTail(body, s.counters.value.oldLeft, s.counters.value.newLeft);
  }

  lemma {:induction false} RunBody(rules: PathRules, s: Reader, body: seq<string>, rest: seq<string>)
    requires s.Valid() && s.counters.Some?
    requires BodyOf(body, s.counters.value.oldLeft, s.counters.value.newLeft)
    requires BodyMeaning(s.Current(), body, s.counters.value.oldLine, s.counters.value.newLine).Ok?
    ensures var file := BodyMeaning(s.Current(), body, s.counters.value.oldLine, s.counters.value.newLine).value;
            Run(rules, s, body + rest) == Run(rules, Moved(s, file, Some(Spent(s.counters.value))), rest)
    decreases |body|
  {
    hide Run, ReadInside, RecordMarker, IsBodyLine;
    if body == [] {
      MovedNowhere(s);
      assert body + rest == rest;
    } else {
      var file := BodyMeaning(s.Current(), body, s.counters.value.oldLine, s.counters.value.newLine).value;
      BodyStep(s, body);
      var next := ReadInside(s, body[0]).value;
      MovedTwice(s, next.Current(), next.counters, file, Some(Spent(next.counters.value)));
      StepInside(rules, s, body[0], body[1..] + rest);
      assert body + rest == [body[0]] + (body[1..] + rest);
      RunBody(rules, next, body[1..], rest);
    }
  }

  /** A body whose last line is not a marker leaves at least one counter positive before it. */
  lemma {:induction false} CountsPositive(body: seq<string>)
    requires body != [] && body[|body| - 1] != MARKER
    requires forall line :: line in body ==> IsBodyLine(line) || line == MARKER
    ensures CountExcept(body, Added) + CountExcept(body, Removed) > 0
  {
    assert body[0] in body;
    if body[0] == MARKER {
      assert body[1..][|body| - 2] == body[|body| - 1];
      CountsPositive(body[1..]);
    }
  }

  /** Counters that have run out close without taking a line, unless it is a marker. */
  lemma RunClose(rules: PathRules, s: Reader, rest: seq<string>)
    requires s.Valid() && s.counters.Some? && s.counters.value.Exhausted()
    requires rest != [] ==> rest[0] != MARKER
    ensures Run(rules, s, rest) == Run(rules, s.(counters := None), rest)
  {
  }

  lemma RunHunk(rules: PathRules, s: Reader, hunk: HunkTree, rest: seq<string>)
    requires s.Valid() && s.counters.None? && s.files != []
    requires HunkDerives(hunk) && HunkMeaning(s.Current(), hunk).Ok?
    requires rest != [] ==> rest[0] != MARKER
    ensures Run(rules, s, HunkText(hunk) + rest) == Run(rules, Moved(s, HunkMeaning(s.Current(), hunk).value, None), rest)
  {
    hide Run, OpenHunk, BodyOf, BodyMeaning, RecordMarker, AppendHunk;
    var start := OpenHunk(hunk.header).value;
    var inside := Moved(s, AppendHunk(s.Current(), start), Some(HunkCounters(start)));
    var tail := (if hunk.trailing then [MARKER] else []) + rest;
    assert HunkText(hunk) + rest == [hunk.header] + (hunk.body + tail);
    NoFileHeader(hunk.header);
    StepOutside(rules, s, hunk.header, hunk.body + tail);
    RunBody(rules, inside, hunk.body, tail);
    var file := BodyMeaning(inside.Current(), hunk.body, start.oldStart, start.newStart).value;
    MovedTwice(s, inside.Current(), inside.counters, file, Some(Spent(HunkCounters(start))));
    var closing := Moved(inside, file, Some(Spent(HunkCounters(start))));
    if hunk.trailing {
      StepLastMarker(rules, closing, rest);
      MovedTwice(s, file, closing.counters, RecordMarker(file).value, None);
    } else {
      assert tail == rest;
      RunClose(rules, closing, rest);
      MovedTwice(s, file, closing.counters, file, None);
    }
  }

  /** No text of sections, or of files, starts with a marker. */
  lemma TextStarts(rules: PathRules, sections: seq<Section>, files: seq<FileTree>)
    requires forall section :: section in sections ==> SectionDerives(section)
    requires forall file :: file in files ==> FileDerives(rules, file)
    ensures var text := SectionsText(sections) + FilesText(files); text != [] ==> text[0] != MARKER
  {
    hide OpenHunk, BodyOf, OpenFile;
    var text := SectionsText(sections) + FilesText(files);
    if sections != [] {
      assert sections[0] in sections;
      match sections[0] {
        case Prose(line) => assert text[0] == line;
        case HunkSection(hunk) => assert text[0] == hunk.header; assert hunk.header[0] == '@';
      }
    } else if files != [] {
      assert files[0] in files;
      assert text[0] == files[0].oldHeader;
      assert text[0][0] == '-';
    }
  }

  lemma SectionsIgnoredFirst(sections: seq<Section>)
    requires sections != []
    ensures SectionsIgnored(sections) <==> (sections[0].Prose? && sections[0].line != "") || SectionsIgnored(sections[1..])
  {
    assert forall x :: x in sections <==> x == sections[0] || x in sections[1..];
  }

  lemma {:induction false} RunSections(rules: PathRules, s: Reader, sections: seq<Section>, files: seq<FileTree>)
    requires s.Valid() && s.counters.None? && s.files != []
    requires forall section :: section in sections ==> SectionDerives(section)
    requires forall file :: file in files ==> FileDerives(rules, file)
    requires SectionsMeaning(s.Current(), sections).Ok?
    ensures Run(rules, s, SectionsText(sections) + FilesText(files)) ==
            Run(rules, Moved(s, SectionsMeaning(s.Current(), sections).value, None).(ignored := s.ignored || SectionsIgnored(sections)),
                FilesText(files))
    decreases |sections|
  {
    hide Run, HunkMeaning, HunkDerives, SectionsIgnored, FilesText, FileDerives, HunkText;
    var text := SectionsText(sections) + FilesText(files);
    if sections == [] {
      assert text == FilesText(files);
      MovedNowhere(s);
      assert !SectionsIgnored([]) by { NothingIgnored(); }
    } else {
      assert sections[0] in sections;
      var rest := SectionsText(sections[1..]) + FilesText(files);
      TextStarts(rules, sections[1..], files);
      SectionsIgnoredFirst(sections);
      match sections[0] {
        case Prose(line) =>
          assert text == [line] + rest;
          RunProse(rules, s, line, rest);
          RunSections(rules, s.(ignored := s.ignored || line != ""), sections[1..], files);
        case HunkSection(hunk) =>
          assert text == HunkText(hunk) + rest;
          RunHunk(rules, s, hunk, rest);
          var file := HunkMeaning(s.Current(), hunk).value;
          RunSections(rules, Moved(s, file, None), sections[1..], files);
          MovedTwice(s, file, None, SectionsMeaning(file, sections[1..]).value, None);
      }
    }
  }

  lemma NothingIgnored()
    ensures !SectionsIgnored([])
  {
  }

  lemma RunProse(rules: PathRules, s: Reader, line: string, rest: seq<string>)
    requires s.Valid() && s.counters.None? && IsProse(line)
    ensures Run(rules, s, [line] + rest) == Run(rules, s.(ignored := s.ignored || line != ""), rest)
  {
    NoFileHeader(line);
    StepOutside(rules, s, line, rest);
  }

  lemma {:induction false} RunPreamble(rules: PathRules, s: Reader, preamble: seq<string>, rest: seq<string>)
    requires s.Valid() && s.counters.None?
    requires forall line :: line in preamble ==> IsProse(line)
    ensures Run(rules, s, preamble + rest) ==
            Run(rules, s.(ignored := s.ignored || exists line :: line in preamble && line != ""), rest)
    decreases |preamble|
  {
    if preamble == [] {
      assert preamble + rest == rest;
    } else {
      assert preamble[0] in preamble;
      assert preamble + rest == [preamble[0]] + (preamble[1..] + rest);
      RunProse(rules, s, preamble[0], preamble[1..] + rest);
      RunPreamble(rules, s.(ignored := s.ignored || preamble[0] != ""), preamble[1..], rest);
      assert forall x :: x in preamble <==> x == preamble[0] || x in preamble[1..];
    }
  }

  /** The reader after the first file and its sections. */
  lemma RunFirstFile(rules: PathRules, s: Reader, files: seq<FileTree>) returns (next: Reader)
    requires s.Valid() && s.counters.None? && files != []
    requires s.files != [] ==> s.Current().hunks != []
    requires forall file :: file in files ==> FileDerives(rules, file)
    requires FilesMeaning(rules, files, s.identities).Ok?
    ensures next.Valid() && next.counters.None? && |next.files| == |s.files| + 1 && next.files[..|s.files|] == s.files
    ensures next.Current().hunks != [] && next.ignored == (s.ignored || SectionsIgnored(files[0].sections))
    ensures FilesMeaning(rules, files[1..], next.identities).Ok?
    ensures FilesMeaning(rules, files, s.identities).value
         == [next.Current()] + FilesMeaning(rules, files[1..], next.identities).value
    ensures Run(rules, s, FilesText(files)) == Run(rules, next, FilesText(files[1..]))
  {
    hide Run, SectionsText, SectionsMeaning, SectionsIgnored, OpenFile, SectionDerives;
    var file := files[0];
    assert file in files;
    var rest := SectionsText(file.sections) + FilesText(files[1..]);
    assert FilesText(files) == [file.oldHeader, file.newHeader] + rest;
    var start := OpenFile(rules, file.oldHeader, file.newHeader).value;
    var started := s.(files := s.files + [start], identities := s.identities + {rules.fold(start.path)});
    StepFile(rules, s, file.oldHeader, file.newHeader, rest);
    RunSections(rules, started, file.sections, files[1..]);
    SectionsGiveHunk(start, file.sections);
    next := Moved(started, SectionsMeaning(start, file.sections).value, None)
      .(ignored := s.ignored || SectionsIgnored(file.sections));
  }

  lemma {:induction false} RunFiles(rules: PathRules, s: Reader, files: seq<FileTree>)
    requires s.Valid() && s.counters.None?
    requires s.files != [] ==> s.Current().hunks != []
    requires s.files != [] || files != []
    requires forall file :: file in files ==> FileDerives(rules, file)
    requires FilesMeaning(rules, files, s.identities).Ok?
    ensures Run(rules, s, FilesText(files)) ==
            Ok(Contents(s.files + FilesMeaning(rules, files, s.identities).value,
                        s.ignored || exists file :: file in files && SectionsIgnored(file.sections)))
    decreases |files|
  {
    hide Run, SectionsIgnored, FileDerives, FilesText, FilesMeaning;
    if files == [] {
      RunNoFiles(rules, s, files);
    } else {
      var next := RunFirstFile(rules, s, files);
      RunFiles(rules, next, files[1..]);
      var tail := FilesMeaning(rules, files[1..], next.identities).value;
      assert next.files == s.files + [next.Current()];
      assert s.files + [next.Current()] + tail == s.files + ([next.Current()] + tail);
      FilesIgnoredFirst(files);
    }
  }

  lemma RunNoFiles(rules: PathRules, s: Reader, files: seq<FileTree>)
    requires s.Valid() && s.counters.None? && s.files != [] && s.Current().hunks != [] && files == []
    ensures FilesMeaning(rules, files, s.identities) == Ok([])
    ensures Run(rules, s, FilesText(files)) == Ok(Contents(s.files + [], s.ignored))
  {
    hide Run;
    StepEnd(rules, s);
    assert s.files + [] == s.files;
  }

  lemma FilesIgnoredFirst(files: seq<FileTree>)
    requires files != []
    ensures (exists file :: file in files && SectionsIgnored(file.sections))
        <==> SectionsIgnored(files[0].sections) || exists file :: file in files[1..] && SectionsIgnored(file.sections)
  {
    hide SectionsIgnored;
    assert forall file :: file in files <==> file == files[0] || file in files[1..];
  }

  lemma {:induction false} SectionsGiveHunk(file: FileDiff, sections: seq<Section>)
    requires SectionsMeaning(file, sections).Ok?
    requires file.hunks != [] || exists section :: section in sections && section.HunkSection?
    ensures SectionsMeaning(file, sections).value.hunks != []
    decreases |sections|
  {
    if sections != [] {
      assert forall x :: x in sections <==> x == sections[0] || x in sections[1..];
      match sections[0] {
        case Prose(_) => SectionsGiveHunk(file, sections[1..]);
        case HunkSection(hunk) => SectionsGiveHunk(HunkMeaning(file, hunk).value, sections[1..]);
      }
    }
  }

  /** Every derivation with a meaning is accepted, with that meaning. */
  lemma ReaderAcceptsDerivation(rules: PathRules, tree: DiffTree)
    requires Derives(rules, tree) && Meaning(rules, tree).Ok?
    ensures Run(rules, START, TreeText(tree)) == Meaning(rules, tree)
  {
    RunPreamble(rules, START, tree.preamble, FilesText(tree.files));
    var s := START.(ignored := exists line :: line in tree.preamble && line != "");
    RunFiles(rules, s, tree.files);
    var files := FilesMeaning(rules, tree.files, {}).value;
    assert s.files + files == files;
  }

  // ---------------------------------------------------------------- reader => derivation

  /** What is left to derive after a point outside hunks, in the current file. */
  ghost predicate RestDerives(rules: PathRules, s: Reader, sections: seq<Section>, files: seq<FileTree>,
      result: Contents)
    requires s.files != []
  {
    && (forall section :: section in sections ==> SectionDerives(section))
    && (forall file :: file in files ==> FileDerives(rules, file))
    && (s.Current().hunks != [] || exists section :: section in sections && section.HunkSection?)
    && SectionsMeaning(s.Current(), sections).Ok?
    && FilesMeaning(rules, files, s.identities).Ok?
    && result == Contents(
         s.files[..|s.files| - 1] + [SectionsMeaning(s.Current(), sections).value] + FilesMeaning(rules, files, s.identities).value,
         s.ignored || SectionsIgnored(sections) || exists file :: file in files && SectionsIgnored(file.sections))
  }

  /** What is left to derive after a point inside a hunk. */
  ghost predicate InsideDerives(rules: PathRules, s: Reader, body: seq<string>, trailing: bool,
                                sections: seq<Section>, files: seq<FileTree>, result: Contents)
    requires s.Valid() && s.counters.Some?
  {
    var c := s.counters.value;
    var read := BodyMeaning(s.Current(), body, c.oldLine, c.newLine);
    && BodyOf(body, c.oldLeft, c.newLeft)
    && read.Ok?
    && (trailing ==> RecordMarker(read.value).Ok?)
    && RestDerives(rules, Moved(s, if trailing then RecordMarker(read.value).value else read.value, None), sections, files, result)
  }

  lemma PrependBodyLine(s: Reader, line: string, body: seq<string>)
    requires s.Valid() && s.counters.Some? && !s.counters.value.Exhausted() && ReadInside(s, line).Ok?
    requires var d := ReadInside(s, line).value.counters.value; BodyOf(body, d.oldLeft, d.newLeft)
    ensures var next := ReadInside(s, line).value;
            var c, d := s.counters.value, next.counters.value;
            && BodyOf([line] + body, c.oldLeft, c.newLeft)
            && BodyMeaning(s.Current(), [line] + body, c.oldLine, c.newLine) == BodyMeaning(next.Current(), body, d.oldLine, d.newLine)
            && next == Moved(s, next.Current(), next.counters)
  {
    hide Run, RecordMarker, AppendLine;
    var whole := [line] + body;
    assert whole[1..] == body;
    assert forall x :: x in whole ==> x == line || x in body;
    if body != [] {
      assert whole[|whole| - 1] == body[|body| - 1];
    }
  }

  lemma InsidePrepended(rules: PathRules, s: Reader, line: string, body: seq<string>, trailing: bool,
                        sections: seq<Section>, files: seq<FileTree>, result: Contents)
    requires s.Valid() && s.counters.Some? && !s.counters.value.Exhausted() && ReadInside(s, line).Ok?
    requires InsideDerives(rules, ReadInside(s, line).value, body, trailing, sections, files, result)
    ensures InsideDerives(rules, s, [line] + body, trailing, sections, files, result)
  {
    hide ReadInside, BodyOf, BodyMeaning, RecordMarker, RestDerives;
    var next := ReadInside(s, line).value;
    PrependBodyLine(s, line, body);
    var c := s.counters.value;
    var read := BodyMeaning(s.Current(), [line] + body, c.oldLine, c.newLine).value;
    MovedTwice(s, next.Current(), next.counters, if trailing then RecordMarker(read).value else read, None);
  }

  /** A hunk header and what a derivation inside its hunk gives make one more section. */
  lemma PrependHunk(rules: PathRules, s: Reader, header: string, body: seq<string>, trailing: bool,
                    sections: seq<Section>, files: seq<FileTree>, result: Contents)
    requires s.Valid() && s.counters.None? && s.files != [] && "@@" <= header
    requires OpenHunk(header).Ok?
    requires InsideDerives(rules, Moved(s, AppendHunk(s.Current(), OpenHunk(header).value), Some(HunkCounters(OpenHunk(header).value))),
                           body, trailing, sections, files, result)
    ensures RestDerives(rules, s, [HunkSection(HunkTree(header, body, trailing))] + sections, files, result)
  {
    hide OpenHunk, BodyOf, BodyMeaning, RecordMarker, AppendHunk, FileDerives, FilesMeaning, SectionsIgnored;
    var start := OpenHunk(header).value;
    var inside := Moved(s, AppendHunk(s.Current(), start), Some(HunkCounters(start)));
    var hunk := HunkTree(header, body, trailing);
    var read := HunkMeaning(s.Current(), hunk).value;
    MovedTwice(s, inside.Current(), inside.counters, read, None);
    var all := [HunkSection(hunk)] + sections;
    assert all[1..] == sections;
    assert SectionsMeaning(s.Current(), all) == SectionsMeaning(read, sections);
    SectionsIgnoredFirst(all);
    assert HunkSection(hunk) in all;
    assert Moved(s, read, None).files[..|s.files| - 1] == s.files[..|s.files| - 1];
  }

  lemma PrependProse(rules: PathRules, s: Reader, line: string, sections: seq<Section>, files: seq<FileTree>,
      result: Contents)
    requires s.files != [] && IsProse(line)
    requires RestDerives(rules, s.(ignored := s.ignored || line != ""), sections, files, result)
    ensures RestDerives(rules, s, [Prose(line)] + sections, files, result)
  {
    hide HunkMeaning, HunkDerives, FileDerives, FilesMeaning, SectionsIgnored;
    var all := [Prose(line)] + sections;
    assert all[1..] == sections;
    assert SectionsMeaning(s.Current(), all) == SectionsMeaning(s.Current(), sections);
    SectionsIgnoredFirst(all);
    assert forall x :: x in sections ==> x in all;
  }

  /** A file header pair and what is derived after it make one more file. */
  lemma PrependFile(rules: PathRules, s: Reader, oldHeader: string, newHeader: string,
                    sections: seq<Section>, files: seq<FileTree>, result: Contents)
    requires s.counters.None? && s.files != [] && s.Current().hunks != []
    requires "--- " <= oldHeader && "+++ " <= newHeader && ReadFileHeaders(rules, s, oldHeader, newHeader).Ok?
    requires RestDerives(rules, ReadFileHeaders(rules, s, oldHeader, newHeader).value, sections, files, result)
    ensures RestDerives(rules, s, [], [FileTree(oldHeader, newHeader, sections)] + files, result)
  {
    hide SectionDerives, SectionsIgnored, HunkMeaning;
    FilesPrepended(rules, s, oldHeader, newHeader, sections, files, result);
    var file := FileTree(oldHeader, newHeader, sections);
    var all := [file] + files;
    var tail := FilesMeaning(rules, all, s.identities).value;
    assert SectionsMeaning(s.Current(), []) == Ok(s.Current());
    assert s.files[..|s.files| - 1] + [s.Current()] == s.files;
    NothingIgnored();
    assert forall x :: x in all <==> x == file || x in files;
  }

  lemma FilesPrepended(rules: PathRules, s: Reader, oldHeader: string, newHeader: string,
                       sections: seq<Section>, files: seq<FileTree>, result: Contents)
    requires s.counters.None?
    requires "--- " <= oldHeader && "+++ " <= newHeader && ReadFileHeaders(rules, s, oldHeader, newHeader).Ok?
    requires RestDerives(rules, ReadFileHeaders(rules, s, oldHeader, newHeader).value, sections, files, result)
    ensures var all := [FileTree(oldHeader, newHeader, sections)] + files;
            && (forall file :: file in all ==> FileDerives(rules, file))
            && FilesMeaning(rules, all, s.identities).Ok?
            && result.files == s.files + FilesMeaning(rules, all, s.identities).value
  {
    hide SectionDerives, SectionsMeaning, HunkMeaning, OpenFile, SectionsIgnored;
    var next := ReadFileHeaders(rules, s, oldHeader, newHeader).value;
    var file := FileTree(oldHeader, newHeader, sections);
    var all := [file] + files;
    assert all[0] == file && all[1..] == files;
    assert FileDerives(rules, file);
    assert next.files[..|next.files| - 1] == s.files;
    assert FilesMeaning(rules, all, s.identities) ==
           Ok([SectionsMeaning(next.Current(), sections).value] + FilesMeaning(rules, files, next.identities).value);
  }

  lemma {:induction false} DeriveInside(rules: PathRules, s: Reader, lines: seq<string>)
    returns (body: seq<string>, trailing: bool, sections: seq<Section>, files: seq<FileTree>)
    requires s.Valid() && s.counters.Some? && Run(rules, s, lines).Ok?
    ensures body + (if trailing then [MARKER] else []) + SectionsText(sections) + FilesText(files) == lines
    ensures InsideDerives(rules, s, body, trailing, sections, files, Run(rules, s, lines).value)
    decreases |lines|, 1
  {
    hide Run, RestDerives, SectionsText, FilesText, ReadInside, RecordMarker, ReadOutside, ReadFileHeaders, Finish;
    var c := s.counters.value;
    if c.Exhausted() {
      body := [];
      if lines != [] {
        AtHunkEnd(rules, s, lines);
      }
      if lines != [] && lines[0] == MARKER {
        var marked := ReadMarker(s).value;
        trailing := true;
        sections, files := DeriveOutside(rules, marked.(counters := None), lines[1..]);
        assert lines == [MARKER] + lines[1..];
        assert marked.(counters := None) == Moved(s, RecordMarker(s.Current()).value, None);
      } else {
        trailing := false;
        RunClose(rules, s, lines);
        sections, files := DeriveOutside(rules, s.(counters := None), lines);
        MovedNowhere(s.(counters := None));
        assert s.(counters := None) == Moved(s, s.Current(), None);
      }
    } else {
      InsideNeedsLine(rules, s, lines);
      AtInside(rules, s, lines);
      var next := ReadInside(s, lines[0]).value;
      body, trailing, sections, files := DeriveInside(rules, next, lines[1..]);
      InsidePrepended(rules, s, lines[0], body, trailing, sections, files, Run(rules, s, lines).value);
      body := [lines[0]] + body;
      assert lines == [lines[0]] + lines[1..];
    }
  }

  /** A hunk that still wants lines is not accepted at the end. */
  lemma InsideNeedsLine(rules: PathRules, s: Reader, lines: seq<string>)
    requires s.Valid() && s.counters.Some? && !s.counters.value.Exhausted() && Run(rules, s, lines).Ok?
    ensures lines != []
  {
  }

  lemma OutsideHunk(s: Reader, line: string)
    requires s.Valid() && s.counters.None? && s.files != [] && "@@" <= line && ReadOutside(s, line).Ok?
    ensures OpenHunk(line).Ok?
    ensures ReadOutside(s, line).value == Moved(s, AppendHunk(s.Current(), OpenHunk(line).value), Some(HunkCounters(OpenHunk(line).value)))
  {
    hide OpenHunk;
  }

  lemma OutsideProse(s: Reader, line: string)
    requires s.Valid() && s.counters.None? && !("@@" <= line) && ReadOutside(s, line).Ok?
    ensures IsProse(line) && ReadOutside(s, line).value == s.(ignored := s.ignored || line != "")
  {
  }

  lemma {:induction false} DeriveOutside(rules: PathRules, s: Reader, lines: seq<string>)
    returns (sections: seq<Section>, files: seq<FileTree>)
    requires s.Valid() && s.counters.None? && s.files != [] && Run(rules, s, lines).Ok?
    ensures SectionsText(sections) + FilesText(files) == lines
    ensures RestDerives(rules, s, sections, files, Run(rules, s, lines).value)
    decreases |lines|, 0
  {
    hide Run, RestDerives, InsideDerives, OpenHunk, ReadFileHeaders, SectionsText, FilesText, Finish, ReadOutside,
        AppendHunk, IsBodyLine;
    TextOf();
    var result := Run(rules, s, lines).value;
    if lines == [] {
      AtEnd(rules, s);
      sections, files := [], [];
      EndDerives(rules, s);
    } else if "--- " <= lines[0] {
      AtFileHeader(rules, s, lines);
      var next := ReadFileHeaders(rules, s, lines[0], lines[1]).value;
      HeadersOpenFile(rules, s, lines[0], lines[1]);
      var inner, later := DeriveOutside(rules, next, lines[2..]);
      PrependFile(rules, s, lines[0], lines[1], inner, later, result);
      sections, files := [], [FileTree(lines[0], lines[1], inner)] + later;
      TextOfFile(lines, inner, later);
    } else if "@@" <= lines[0] {
      AtOutside(rules, s, lines);
      var next := ReadOutside(s, lines[0]).value;
      OutsideHunk(s, lines[0]);
      var body, trailing, inner, later := DeriveInside(rules, next, lines[1..]);
      PrependHunk(rules, s, lines[0], body, trailing, inner, later, result);
      sections, files := [HunkSection(HunkTree(lines[0], body, trailing))] + inner, later;
      TextOfHunk(lines, body, trailing, inner, later);
    } else {
      AtOutside(rules, s, lines);
      var next := ReadOutside(s, lines[0]).value;
      OutsideProse(s, lines[0]);
      var inner, later := DeriveOutside(rules, next, lines[1..]);
      PrependProse(rules, s, lines[0], inner, later, result);
      sections, files := [Prose(lines[0])] + inner, later;
      TextOfProse(lines, inner, later);
    }
  }

  lemma TextOfFile(lines: seq<string>, inner: seq<Section>, later: seq<FileTree>)
    requires |lines| >= 2 && SectionsText(inner) + FilesText(later) == lines[2..]
    ensures SectionsText([]) + FilesText([FileTree(lines[0], lines[1], inner)] + later) == lines
  {
    hide SectionsText, FilesText;
    TextOf();
    FilesTextPrepend(FileTree(lines[0], lines[1], inner), later);
    assert lines == [lines[0], lines[1]] + lines[2..];
  }

  lemma TextOfHunk(lines: seq<string>, body: seq<string>, trailing: bool, inner: seq<Section>, later: seq<FileTree>)
    requires lines != []
    requires body + (if trailing then [MARKER] else []) + SectionsText(inner) + FilesText(later) == lines[1..]
    ensures SectionsText([HunkSection(HunkTree(lines[0], body, trailing))] + inner) + FilesText(later) == lines
  {
    hide SectionsText, FilesText;
    TextPrepend(HunkSection(HunkTree(lines[0], body, trailing)), inner);
    var marker := if trailing then [MARKER] else [];
    Associate([lines[0]], body, marker, SectionsText(inner), FilesText(later));
    assert lines == [lines[0]] + lines[1..];
  }

  lemma Associate(a: seq<string>, b: seq<string>, c: seq<string>, d: seq<string>, e: seq<string>)
    ensures a + b + c + d + e == a + (b + c + d + e)
  {
  }

  lemma TextOfProse(lines: seq<string>, inner: seq<Section>, later: seq<FileTree>)
    requires lines != [] && SectionsText(inner) + FilesText(later) == lines[1..]
    ensures SectionsText([Prose(lines[0])] + inner) + FilesText(later) == lines
  {
    hide SectionsText, FilesText;
    TextPrepend(Prose(lines[0]), inner);
    assert lines == [lines[0]] + lines[1..];
  }

  lemma TextOf()
    ensures SectionsText([]) == [] && FilesText([]) == []
  {
  }

  lemma TextPrepend(section: Section, rest: seq<Section>)
    ensures SectionsText([section] + rest) ==
            (match section case Prose(line) => [line] case HunkSection(hunk) => HunkText(hunk)) + SectionsText(rest)
  {
    assert ([section] + rest)[1..] == rest;
  }

  lemma FilesTextPrepend(file: FileTree, rest: seq<FileTree>)
    ensures FilesText([file] + rest) == [file.oldHeader, file.newHeader] + SectionsText(file.sections) + FilesText(rest)
  {
    assert ([file] + rest)[1..] == rest;
  }

  lemma HeadersOpenFile(rules: PathRules, s: Reader, oldHeader: string, newHeader: string)
    requires |oldHeader| >= 4 && |newHeader| >= 4 && s.counters.None?
    requires ReadFileHeaders(rules, s, oldHeader, newHeader).Ok?
    ensures ReadFileHeaders(rules, s, oldHeader, newHeader).value.files != []
  {
  }

  lemma EndDerives(rules: PathRules, s: Reader)
    requires s.Valid() && s.counters.None? && s.files != [] && Finish(s).Ok?
    ensures RestDerives(rules, s, [], [], Finish(s).value)
  {
    NothingIgnored();
    assert s.files[..|s.files| - 1] + [s.Current()] + [] == s.files;
  }

  /** Before the first file: only ignored lines, then a file. */
  lemma {:induction false} DerivePreamble(rules: PathRules, s: Reader, lines: seq<string>) returns (tree: DiffTree)
    requires s.Valid() && s.counters.None? && s.files == [] && s.identities == {} && Run(rules, s, lines).Ok?
    ensures TreeText(tree) == lines && Derives(rules, tree) && FilesMeaning(rules, tree.files, {}).Ok?
    ensures Run(rules, s, lines).value == Contents(FilesMeaning(rules, tree.files, {}).value, s.ignored || TreeIgnored(tree))
    decreases |lines|
  {
    hide FilesMeaning, FileDerives, ReadFileHeaders, ReadInside, ReadMarker, SectionsText, FilesText,
        SectionsIgnored, OpenHunk;
    if "--- " <= lines[0] {
      var next := ReadFileHeaders(rules, s, lines[0], lines[1]).value;
      HeadersOpenFile(rules, s, lines[0], lines[1]);
      var inner, later := DeriveOutside(rules, next, lines[2..]);
      FirstFile(rules, s, lines[0], lines[1], inner, later, Run(rules, s, lines).value);
      tree := DiffTree([], [FileTree(lines[0], lines[1], inner)] + later);
      assert lines == [lines[0], lines[1]] + lines[2..];
    } else {
      var next := ReadOutside(s, lines[0]).value;
      var rest := DerivePreamble(rules, next, lines[1..]);
      tree := DiffTree([lines[0]] + rest.preamble, rest.files);
      assert lines == [lines[0]] + lines[1..];
      PreambleIgnored(lines[0], rest);
    }
  }

  lemma PreambleIgnored(line: string, rest: DiffTree)
    ensures var tree := DiffTree([line] + rest.preamble, rest.files);
            && (forall x :: x in tree.preamble ==> x == line || x in rest.preamble)
            && (TreeIgnored(tree) <==> line != "" || TreeIgnored(rest))
  {
    hide SectionsIgnored;
    var tree := DiffTree([line] + rest.preamble, rest.files);
    assert line in tree.preamble;
    if x :| x in rest.preamble && x != "" {
      assert x in tree.preamble;
    }
    if x :| x in tree.preamble && x != "" {
      assert x == line || x in rest.preamble;
    }
  }

  lemma FirstFile(rules: PathRules, s: Reader, oldHeader: string, newHeader: string,
                  sections: seq<Section>, files: seq<FileTree>, result: Contents)
    requires s.counters.None? && s.files == [] && s.identities == {}
    requires "--- " <= oldHeader && "+++ " <= newHeader && ReadFileHeaders(rules, s, oldHeader, newHeader).Ok?
    requires RestDerives(rules, ReadFileHeaders(rules, s, oldHeader, newHeader).value, sections, files, result)
    ensures var tree := DiffTree([], [FileTree(oldHeader, newHeader, sections)] + files);
            && Derives(rules, tree) && FilesMeaning(rules, tree.files, {}).Ok?
            && TreeText(tree) == [oldHeader, newHeader] + (SectionsText(sections) + FilesText(files))
            && result == Contents(FilesMeaning(rules, tree.files, {}).value, s.ignored || TreeIgnored(tree))
  {
    hide RestDerives, FileDerives, ReadFileHeaders, SectionsText, FilesText, FilesMeaning, TreeIgnored;
    var file := FileTree(oldHeader, newHeader, sections);
    FilesPrepended(rules, s, oldHeader, newHeader, sections, files, result);
    FirstFileIgnored(rules, s, oldHeader, newHeader, sections, files, result);
    FilesTextPrepend(file, files);
    var tree := DiffTree([], [file] + files);
    assert [] + FilesText(tree.files) == FilesText(tree.files);
    assert [] + FilesMeaning(rules, tree.files, {}).value == FilesMeaning(rules, tree.files, {}).value;
  }

  /** What the first file and the files after it ignore is what the tree ignores. */
  lemma FirstFileIgnored(rules: PathRules, s: Reader, oldHeader: string, newHeader: string,
                         sections: seq<Section>, files: seq<FileTree>, result: Contents)
    requires s.counters.None? && |oldHeader| >= 4 && |newHeader| >= 4
    requires ReadFileHeaders(rules, s, oldHeader, newHeader).Ok?
    requires RestDerives(rules, ReadFileHeaders(rules, s, oldHeader, newHeader).value, sections, files, result)
    ensures result.ignored <==> s.ignored || TreeIgnored(DiffTree([], [FileTree(oldHeader, newHeader, sections)] + files))
  {
    hide SectionDerives, FileDerives, SectionsMeaning, FilesMeaning, OpenFile, SectionsIgnored;
    var file := FileTree(oldHeader, newHeader, sections);
    assert forall x :: x in [file] + files <==> x == file || x in files;
  }

  /** Everything the reader accepts has a derivation, and the reader returns its meaning. */
  lemma ReaderFollowsDerivation(rules: PathRules, lines: seq<string>) returns (tree: DiffTree)
    requires Run(rules, START, lines).Ok?
    ensures TreeText(tree) == lines && Derives(rules, tree)
    ensures Meaning(rules, tree) == Run(rules, START, lines)
  {
    hide Run;
    tree := DerivePreamble(rules, START, lines);
  }

  /** The reader refines the grammar: it accepts exactly what is derived, with its meaning. */
  lemma ReaderRefinesGrammar(rules: PathRules, lines: seq<string>, contents: Contents)
    ensures Run(rules, START, lines) == Ok(contents) <==>
            exists tree :: Derives(rules, tree) && TreeText(tree) == lines && Meaning(rules, tree) == Ok(contents)
  {
    hide Run, Meaning, Derives;
    if Run(rules, START, lines) == Ok(contents) {
      var tree := ReaderFollowsDerivation(rules, lines);
    }
    if exists tree :: Derives(rules, tree) && TreeText(tree) == lines && Meaning(rules, tree) == Ok(contents) {
      var tree :| Derives(rules, tree) && TreeText(tree) == lines && Meaning(rules, tree) == Ok(contents);
      ReaderAcceptsDerivation(rules, tree);
    }
  }
}
