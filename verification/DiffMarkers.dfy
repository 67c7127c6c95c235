/**
 Which derivations have a meaning: on each side of a file one marker at most, none before the
 file's first line, and no two files whose names fold together (app/agent/patches.py:130-143,
 187-206, 263-271).
 */
module DiffMarkers {
  import opened Wrappers
  import opened TextLines
  import opened UnifiedDiff
  import opened DiffGrammar
  import DiffParser
  import opened DiffPrinter

  /** The kind of the last line read, if there was one. */
  function KindAfter(body: seq<string>, last: Option<LineKind>): Option<LineKind> {
    if body == [] then last
    else KindAfter(body[1..], if IsBodyLine(body[0]) then Some(BodyKind(body[0])) else last)
  }

  /** How many markers follow a line that is not of this kind. */
  function Markers(body: seq<string>, last: Option<LineKind>, other: LineKind): nat {
    if body == [] then 0
    else if IsBodyLine(body[0]) then Markers(body[1..], Some(BodyKind(body[0])), other)
    else (if last.Some? && last.value != other then 1 else 0) + Markers(body[1..], last, other)
  }

  predicate MarkersFit(body: seq<string>, last: Option<LineKind>, oldMarked: bool, newMarked: bool) {
    && (last.None? && body != [] ==> IsBodyLine(body[0]))
    && Markers(body, last, Added) + (if oldMarked then 1 else 0) <= 1
    && Markers(body, last, Removed) + (if newMarked then 1 else 0) <= 1
  }

  function LastKind(file: FileDiff): Option<LineKind> {
    if file.lines == [] then None else Some(file.lines[|file.lines| - 1].kind)
  }

  /** What reading a body makes of a file's markers. */
  predicate ReadsMarkers(file: FileDiff, body: seq<string>, r: Result<FileDiff, DiffError>) {
    && (r.Ok? <==> MarkersFit(body, LastKind(file), file.oldNoNewline, file.newNoNewline))
    && (r.Ok? ==>
         && LastKind(r.value) == KindAfter(body, LastKind(file))
         && (r.value.oldNoNewline <==> file.oldNoNewline || Markers(body, LastKind(file), Added) > 0)
         && (r.value.newNoNewline <==> file.newNoNewline || Markers(body, LastKind(file), Removed) > 0))
  }

  lemma LineStep(file: FileDiff, line: DiffLine, body: seq<string>, r: Result<FileDiff, DiffError>)
    requires file.hunks != [] && body != [] && IsBodyLine(body[0]) && line.kind == BodyKind(body[0])
    requires ReadsMarkers(AppendLine(file, line), body[1..], r)
    ensures ReadsMarkers(file, body, r)
  {
    assert LastKind(AppendLine(file, line)) == Some(BodyKind(body[0]));
  }

  lemma MarkerStep(file: FileDiff, body: seq<string>, r: Result<FileDiff, DiffError>)
    requires body != [] && !IsBodyLine(body[0])
    requires if RecordMarker(file).Ok? then ReadsMarkers(RecordMarker(file).value, body[1..], r) else r.Err?
    ensures ReadsMarkers(file, body, r)
  {
  }

  lemma {:induction false} BodyMarkers(file: FileDiff, body: seq<string>, o: nat, n: nat)
    requires file.hunks != []
    ensures ReadsMarkers(file, body, BodyMeaning(file, body, o, n))
    decreases |body|
  {
    hide RecordMarker, AppendLine, BodyKind, IsBodyLine;
    if body == [] {
    } else if IsBodyLine(body[0]) {
      var line := NumberedLine(body[0], o, n);
      BodyMarkers(AppendLine(file, line), body[1..],
                  if line.OnOldSide() then o + 1 else o, if line.OnNewSide() then n + 1 else n);
      LineStep(file, line, body, BodyMeaning(file, body, o, n));
    } else {
      if RecordMarker(file).Ok? {
        BodyMarkers(RecordMarker(file).value, body[1..], o, n);
      }
      MarkerStep(file, body, BodyMeaning(file, body, o, n));
    }
  }

  /** A hunk is read as its body with the marker behind it. */
  lemma WholeMeaning(file: FileDiff, hunk: HunkTree)
    requires HunkDerives(hunk)
    ensures var start := OpenHunk(hunk.header).value;
            HunkMeaning(file, hunk) == BodyMeaning(AppendHunk(file, start), WholeBody(hunk), start.oldStart, start.newStart)
  {
    hide OpenHunk, RecordMarker, BodyOf;
    var start := OpenHunk(hunk.header).value;
    BodyMeaningAppend(AppendHunk(file, start), hunk.body, [MARKER], start.oldStart, start.newStart);
    if hunk.trailing {
      assert WholeBody(hunk) == hunk.body + [MARKER];
      assert [MARKER][1..] == [];
    } else {
      assert WholeBody(hunk) == hunk.body;
    }
  }

  lemma HunkMarkers(file: FileDiff, hunk: HunkTree)
    requires HunkDerives(hunk)
    ensures ReadsMarkers(file, WholeBody(hunk), HunkMeaning(file, hunk))
  {
    hide ReadsMarkers, HunkMeaning, BodyMeaning, OpenHunk, BodyOf, WholeBody;
    var start := OpenHunk(hunk.header).value;
    WholeMeaning(file, hunk);
    BodyMarkers(AppendHunk(file, start), WholeBody(hunk), start.oldStart, start.newStart);
    SameMarkers(file, start, WholeBody(hunk), HunkMeaning(file, hunk));
  }

  lemma SameMarkers(file: FileDiff, hunk: Hunk, body: seq<string>, r: Result<FileDiff, DiffError>)
    requires ReadsMarkers(AppendHunk(file, hunk), body, r)
    ensures ReadsMarkers(file, body, r)
  {
    assert LastKind(AppendHunk(file, hunk)) == LastKind(file);
  }

  lemma {:induction false} MarkersAppend(xs: seq<string>, ys: seq<string>, last: Option<LineKind>, other: LineKind)
    ensures Markers(xs + ys, last, other) == Markers(xs, last, other) + Markers(ys, KindAfter(xs, last), other)
    ensures KindAfter(xs + ys, last) == KindAfter(ys, KindAfter(xs, last))
    ensures KindAfter(xs, last).Some? <==> last.Some? || exists line :: line in xs && IsBodyLine(line)
  {
    if xs == [] {
      assert xs + ys == ys;
    } else {
      assert (xs + ys)[1..] == xs[1..] + ys;
      assert forall line :: line in xs <==> line == xs[0] || line in xs[1..];
      MarkersAppend(xs[1..], ys, if IsBodyLine(xs[0]) then Some(BodyKind(xs[0])) else last, other);
    }
  }

  lemma FitAppend(xs: seq<string>, ys: seq<string>, last: Option<LineKind>, o: bool, n: bool)
    ensures MarkersFit(xs + ys, last, o, n) <==>
              MarkersFit(xs, last, o, n)
              && MarkersFit(ys, KindAfter(xs, last), o || Markers(xs, last, Added) > 0, n || Markers(xs, last, Removed) > 0)
  {
    MarkersAppend(xs, ys, last, Added);
    MarkersAppend(xs, ys, last, Removed);
    if xs == [] {
      assert xs + ys == ys;
    } else {
      assert (xs + ys)[0] == xs[0] && xs[0] in xs;
    }
  }

  /** The bodies of a file's hunks with their markers, one after the other. */
  function Bodies(sections: seq<Section>): seq<string> {
    if sections == [] then []
    else
      match sections[0]
      case Prose(_) => Bodies(sections[1..])
      case HunkSection(hunk) => WholeBody(hunk) + Bodies(sections[1..])
  }

  lemma {:induction false} SectionsMarkers(file: FileDiff, sections: seq<Section>)
    requires forall section :: section in sections ==> SectionDerives(section)
    ensures ReadsMarkers(file, Bodies(sections), SectionsMeaning(file, sections))
    decreases |sections|
  {
    hide HunkDerives, HunkMeaning, MarkersFit;
    if sections == [] {
      assert MarkersFit([], LastKind(file), file.oldNoNewline, file.newNoNewline) by {
        Unmarked(LastKind(file), file.oldNoNewline, file.newNoNewline);
      }
    } else {
      assert sections[0] in sections;
      match sections[0]
      case Prose(_) => SectionsMarkers(file, sections[1..]);
      case HunkSection(hunk) =>
        HunkMarkers(file, hunk);
        var body, rest := WholeBody(hunk), Bodies(sections[1..]);
        FitAppend(body, rest, LastKind(file), file.oldNoNewline, file.newNoNewline);
        MarkersAppend(body, rest, LastKind(file), Added);
        MarkersAppend(body, rest, LastKind(file), Removed);
        if HunkMeaning(file, hunk).Ok? {
          SectionsMarkers(HunkMeaning(file, hunk).value, sections[1..]);
        }
    }
  }

  lemma Unmarked(last: Option<LineKind>, o: bool, n: bool)
    ensures MarkersFit([], last, o, n)
  {
  }

  /** What a file is known by. */
  function Identity(rules: PathRules, file: FileTree): string
    requires FileDerives(rules, file)
  {
    rules.fold(OpenFile(rules, file.oldHeader, file.newHeader).value.path)
  }

  /** One marker at most for each side, and none before the first line. */
  predicate FileFits(file: FileTree) {
    && (Bodies(file.sections) != [] ==> IsBodyLine(Bodies(file.sections)[0]))
    && Markers(Bodies(file.sections), None, Added) <= 1
    && Markers(Bodies(file.sections), None, Removed) <= 1
  }

  lemma FileMarkers(rules: PathRules, file: FileTree)
    requires FileDerives(rules, file)
    ensures var start := OpenFile(rules, file.oldHeader, file.newHeader).value;
            var r := SectionsMeaning(start, file.sections);
            && (r.Ok? <==> FileFits(file))
            && (r.Ok? ==>
                 && (r.value.oldNoNewline <==> Markers(Bodies(file.sections), None, Added) == 1)
                 && (r.value.newNoNewline <==> Markers(Bodies(file.sections), None, Removed) == 1))
  {
    hide Markers, Bodies, SectionsMeaning, SectionDerives, IsBodyLine;
    SectionsMarkers(OpenFile(rules, file.oldHeader, file.newHeader).value, file.sections);
  }

  /** The files of a derivation have a meaning exactly so, and the flags are those of the markers. */
  lemma {:induction false} FilesExact(rules: PathRules, files: seq<FileTree>, identities: set<string>)
    requires forall file :: file in files ==> FileDerives(rules, file)
    ensures FilesMeaning(rules, files, identities).Ok? <==>
              && (forall i :: 0 <= i < |files| ==> FileFits(files[i]) && Identity(rules, files[i]) !in identities)
              && (forall i, j :: 0 <= i < j < |files| ==> Identity(rules, files[i]) != Identity(rules, files[j]))
    ensures FilesMeaning(rules, files, identities).Ok? ==>
              var r := FilesMeaning(rules, files, identities).value;
              && |r| == |files|
              && forall i :: 0 <= i < |files| ==>
                   && (r[i].oldNoNewline <==> Markers(Bodies(files[i].sections), None, Added) == 1)
                   && (r[i].newNoNewline <==> Markers(Bodies(files[i].sections), None, Removed) == 1)
    decreases |files|
  {
    hide FileFits, Markers, Bodies, SectionsMeaning, FileDerives, OpenFile, Identity;
    if files != [] {
      assert files[0] in files;
      FileMarkers(rules, files[0]);
      FirstFile(rules, files, identities);
      var rest := files[1..];
      FilesExact(rules, rest, identities + {Identity(rules, files[0])});
      assert forall i :: 0 <= i < |rest| ==> rest[i] == files[i + 1];
      assert forall i :: 0 < i < |files| ==> files[i] == rest[i - 1];
    }
  }

  lemma FirstFile(rules: PathRules, files: seq<FileTree>, identities: set<string>)
    requires files != [] && FileDerives(rules, files[0]) && forall file :: file in files ==> FileDerives(rules, file)
    ensures var start := OpenFile(rules, files[0].oldHeader, files[0].newHeader).value;
            FilesMeaning(rules, files, identities) ==
            if Identity(rules, files[0]) in identities then Err(DuplicateIdentity)
            else
              match SectionsMeaning(start, files[0].sections)
              case Err(error) => Err(error)
              case Ok(first) =>
                match FilesMeaning(rules, files[1..], identities + {Identity(rules, files[0])})
                case Err(error) => Err(error)
                case Ok(rest) => Ok([first] + rest)
  {
    hide FileDerives, SectionsMeaning;
  }

  /** A derivation that the reader accepts. */
  predicate Fits(rules: PathRules, tree: DiffTree) {
    && Derives(rules, tree)
    && (forall file :: file in tree.files ==> FileFits(file))
    && forall i, j :: 0 <= i < j < |tree.files| ==> Identity(rules, tree.files[i]) != Identity(rules, tree.files[j])
  }

  lemma MeaningExact(rules: PathRules, tree: DiffTree)
    requires Derives(rules, tree)
    ensures Meaning(rules, tree).Ok? <==> Fits(rules, tree)
  {
    hide FileFits, FileDerives, FilesMeaning, Identity;
    FilesExact(rules, tree.files, {});
    assert forall file :: file in tree.files ==> exists i :: 0 <= i < |tree.files| && tree.files[i] == file;
  }

  /** A text is accepted exactly when it is free of NUL and its lines are those of a derivation that fits. */
  lemma ParseAccepts(rules: PathRules, text: string)
    ensures Parse(rules, text).Ok? <==>
              '\0' !in text && exists tree :: Fits(rules, tree) && TreeText(tree) == Split(NormalizeNewlines(text))
  {
    hide Parse, Meaning, Derives, FileFits, Identity, Split, NormalizeNewlines, TreeText;
    DiffParser.ParseIsDerivation(rules, text);
    var lines := Split(NormalizeNewlines(text));
    if tree :| DiffParser.IsDerivation(rules, tree, lines) {
      MeaningExact(rules, tree);
    }
    if tree :| Fits(rules, tree) && TreeText(tree) == lines {
      MeaningExact(rules, tree);
      assert DiffParser.IsDerivation(rules, tree, lines);
    }
  }
}
