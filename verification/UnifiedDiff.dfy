/**
 The parsed form of a unified diff, the lines it is made of, and the reader's
 one-line steps (app/agent/patches.py).
 */
module UnifiedDiff {
  import opened Wrappers
  import opened TextLines

  datatype LineKind = Context | Added | Removed

  datatype DiffLine = DiffLine(kind: LineKind, content: string, oldLine: Option<nat>, newLine: Option<nat>) {
    predicate OnOldSide() {
      kind != Added
    }

    predicate OnNewSide() {
      kind != Removed
    }
  }

  datatype Hunk = Hunk(oldStart: nat, oldCount: nat, newStart: nat, newCount: nat, lines: seq<DiffLine>)

  datatype FileDiff = FileDiff(
    path: string, oldPath: Option<string>, newPath: Option<string>,
    lines: seq<DiffLine>, hunks: seq<Hunk>,
    oldNoNewline: bool, newNoNewline: bool,
    oldNoNewlineLine: Option<nat>, newNoNewlineLine: Option<nat>)
  {
    predicate IsAdded() {
      oldPath.None?
    }

    predicate IsDeleted() {
      newPath.None?
    }
  }

  datatype ParsedDiff = ParsedDiff(normalizedText: string, files: seq<FileDiff>, hasIgnoredContent: bool)

  datatype DiffError =
    | ContainsNul
    | MisplacedMarker
    | RepeatedMarker
    | InvalidPath
    | UnsupportedPrefix
    | TwoNullFiles
    | HeadersDisagree
    | DuplicateIdentity
    | MalformedHunkContent
    | CountsDisagree
    | FileHasNoHunk
    | HeadersNotPaired
    | UnsupportedHeader
    | MalformedHunk
    | CoordinateTooLarge
    | InvalidZeroStart
    | ContentOutsideHunk
    | NoFileOrHunk

  const MARKER := "\\ No newline at end of file"
  const MAX_NUMBER_DIGITS := 18

  // ---------------------------------------------------------------- paths

  /**
   What the path rules take from the platform: Unicode case folding, and whether a
   name is stripped and free of a Windows drive or root.
   */
  datatype PathRules = PathRules(fold: string -> string, portable: string -> bool)

  /** The parts of `path.split("/")`. */
  function PathParts(path: string): (parts: seq<string>)
    ensures |parts| >= 1
  {
    if path == "" then [""]
    else
      var rest := PathParts(path[1..]);
      if path[0] == '/' then [""] + rest else [[path[0]] + rest[0]] + rest[1..]
  }

  predicate ControlCharacter(c: char) {
    c < ' ' || '\U{7f}' <= c <= '\U{9f}'
  }

  predicate ValidPath(rules: PathRules, path: string) {
    && path != ""
    && (forall c :: c in path ==> c != '\\' && !ControlCharacter(c))
    && (forall part :: part in PathParts(path) ==> part != "" && part != "." && part != "..")
    && rules.portable(path)
  }

  /** The path in a file header, or None for the null file. */
  function HeaderPath(rules: PathRules, value: string, prefix: string): Result<Option<string>, DiffError> {
    if value == "/dev/null" then Ok(None)
    else if !(prefix <= value) then Err(UnsupportedPrefix)
    else if !ValidPath(rules, value[|prefix|..]) then Err(InvalidPath)
    else Ok(Some(value[|prefix|..]))
  }

  /** The builder a pair of file headers starts. */
  function OpenFile(rules: PathRules, oldHeader: string, newHeader: string): (r: Result<FileDiff, DiffError>)
    requires |oldHeader| >= 4 && |newHeader| >= 4
    ensures r.Ok? ==> r.value.lines == [] && r.value.hunks == []
    ensures r.Ok? ==> !r.value.oldNoNewline && !r.value.newNoNewline && r.value.oldNoNewlineLine.None? && r.value.newNoNewlineLine.None?
  {
    var oldPath :- HeaderPath(rules, oldHeader[4..], "a/");
    var newPath :- HeaderPath(rules, newHeader[4..], "b/");
    if oldPath.None? && newPath.None? then Err(TwoNullFiles)
    else if oldPath.Some? && newPath.Some? && oldPath != newPath then Err(HeadersDisagree)
    else
      var path := if oldPath.Some? then oldPath.value else newPath.value;
      Ok(FileDiff(path, oldPath, newPath, [], [], false, false, None, None))
  }

  // ---------------------------------------------------------------- hunk headers

  function DigitPrefix(s: string): (n: nat)
    ensures n <= |s| && AllDigits(s[..n]) && (n < |s| ==> !IsDigit(s[n]))
  {
    if s == "" || !IsDigit(s[0]) then 0
    else
      var n := 1 + DigitPrefix(s[1..]);
      assert forall c :: c in s[..n] ==> c == s[0] || c in s[1..][..n - 1];
      n
  }

  datatype RangeText = RangeText(start: string, count: Option<string>, rest: string)

  /** `(0|[1-9][0-9]*)(,[0-9]+)?` and what follows it. */
  function ReadRange(s: string): (r: Option<RangeText>)
    ensures r.Some? ==> AllDigits(r.value.start) && (r.value.count.Some? ==> AllDigits(r.value.count.value))
  {
    var n := DigitPrefix(s);
    if n == 0 || (n > 1 && s[0] == '0') then None
    else
      var tail := s[n..];
      if "," <= tail && DigitPrefix(tail[1..]) > 0 then
        var m := DigitPrefix(tail[1..]);
        Some(RangeText(s[..n], Some(tail[1..][..m]), tail[1..][m..]))
      else Some(RangeText(s[..n], None, tail))
  }

  datatype HeaderText = HeaderText(before: RangeText, after: RangeText)

  /** A full match of the hunk header pattern. */
  function MatchHunkHeader(line: string): (r: Option<HeaderText>)
    ensures r.Some? ==>
              && AllDigits(r.value.before.start) && (r.value.before.count.Some? ==> AllDigits(r.value.before.count.value))
              && AllDigits(r.value.after.start) && (r.value.after.count.Some? ==> AllDigits(r.value.after.count.value))
  {
    if !("@@ -" <= line) then None
    else
      var before :- ReadRange(line[4..]);
      if !(" +" <= before.rest) then None
      else
        var after :- ReadRange(before.rest[2..]);
        if !(" @@" <= after.rest) then None
        else if after.rest[3..] != "" && !(" " <= after.rest[3..]) then None
        else Some(HeaderText(before, after))
  }

  function HunkNumber(text: string): Result<nat, DiffError>
    requires AllDigits(text)
  {
    if |text| > MAX_NUMBER_DIGITS then Err(CoordinateTooLarge) else Ok(NumeralValue(text))
  }

  function HunkCount(text: Option<string>): Result<nat, DiffError>
    requires text.Some? ==> AllDigits(text.value)
  {
    if text.None? then Ok(1) else HunkNumber(text.value)
  }

  /** The empty hunk a header line starts. */
  function OpenHunk(header: string): (r: Result<Hunk, DiffError>)
    ensures r.Ok? ==> r.value.lines == []
  {
    match MatchHunkHeader(header)
    case None => Err(MalformedHunk)
    case Some(text) =>
      var oldCount :- HunkCount(text.before.count);
      var newCount :- HunkCount(text.after.count);
      var oldStart :- HunkNumber(text.before.start);
      var newStart :- HunkNumber(text.after.start);
      if (oldCount > 0 && oldStart == 0) || (newCount > 0 && newStart == 0) then Err(InvalidZeroStart)
      else Ok(Hunk(oldStart, oldCount, newStart, newCount, []))
  }

  // ---------------------------------------------------------------- file builder

  /** Attach a no-newline marker to the last line of the file. */
  function RecordMarker(file: FileDiff): (r: Result<FileDiff, DiffError>)
    ensures r.Ok? ==> r.value.hunks == file.hunks && r.value.lines == file.lines && r.value.path == file.path
  {
    if file.lines == [] then Err(MisplacedMarker)
    else
      var last := file.lines[|file.lines| - 1];
      if (last.OnOldSide() && file.oldNoNewline) || (last.OnNewSide() && file.newNoNewline) then Err(RepeatedMarker)
      else
        var marked := if last.OnOldSide() then file.(oldNoNewline := true, oldNoNewlineLine := last.oldLine) else file;
        Ok(if last.OnNewSide() then marked.(newNoNewline := true, newNoNewlineLine := last.newLine) else marked)
  }

  function AppendLine(file: FileDiff, line: DiffLine): (r: FileDiff)
    requires file.hunks != []
    ensures |r.hunks| == |file.hunks| && r.lines == file.lines + [line] && r.path == file.path
  {
    var n := |file.hunks| - 1;
    file.(lines := file.lines + [line],
          hunks := file.hunks[n := file.hunks[n].(lines := file.hunks[n].lines + [line])])
  }

  function AppendHunk(file: FileDiff, hunk: Hunk): FileDiff {
    file.(hunks := file.hunks + [hunk])
  }

  // ---------------------------------------------------------------- counters

  /** What is left of the current hunk, and the numbers its next lines get. */
  datatype Counters = Counters(oldLeft: nat, newLeft: nat, oldLine: nat, newLine: nat) {
    predicate Exhausted() {
      oldLeft == 0 && newLeft == 0
    }
  }

  function HunkCounters(hunk: Hunk): Counters {
    Counters(hunk.oldCount, hunk.newCount, hunk.oldStart, hunk.newStart)
  }

  predicate IsBodyLine(line: string) {
    |line| > 0 && (line[0] == ' ' || line[0] == '-' || line[0] == '+')
  }

  function BodyKind(line: string): LineKind
    requires IsBodyLine(line)
  {
    if line[0] == ' ' then Context else if line[0] == '-' then Removed else Added
  }

  /** The numbered line a body line stands for. */
  function NumberedLine(line: string, oldLine: nat, newLine: nat): DiffLine
    requires IsBodyLine(line)
  {
    var kind := BodyKind(line);
    DiffLine(kind, line[1..],
             if kind == Added then None else Some(oldLine),
             if kind == Removed then None else Some(newLine))
  }

  function Step(kind: LineKind, c: Counters): Result<Counters, DiffError> {
    var o := if kind == Added then 0 else 1;
    var n := if kind == Removed then 0 else 1;
    if c.oldLeft < o || c.newLeft < n then Err(CountsDisagree)
    else Ok(Counters(c.oldLeft - o, c.newLeft - n, c.oldLine + o, c.newLine + n))
  }

  // ---------------------------------------------------------------- the reader

  predicate IsHeaderPair(lines: seq<string>) {
    |lines| >= 2 && "--- " <= lines[0] && "+++ " <= lines[1]
  }

  /** A line that is none of the reader's own: skipped, and remembered unless blank. */
  predicate IsProse(line: string) {
    !IsBodyLine(line) && !("@@" <= line) && line != MARKER
  }

  datatype Reader = Reader(files: seq<FileDiff>, identities: set<string>, counters: Option<Counters>, ignored: bool) {
    predicate Valid() {
      counters.Some? ==> files != [] && Current().hunks != []
    }

    function Current(): FileDiff
      requires files != []
    {
      files[|files| - 1]
    }

    function WithCurrent(file: FileDiff): Reader
      requires files != []
    {
      this.(files := files[|files| - 1 := file])
    }
  }

  const START := Reader([], {}, None, false)

  datatype Contents = Contents(files: seq<FileDiff>, ignored: bool)

  /** The checks after the last line. */
  function Finish(s: Reader): Result<Contents, DiffError> {
    if s.counters.Some? && !s.counters.value.Exhausted() then Err(CountsDisagree)
    else if s.files == [] || s.Current().hunks == [] then Err(NoFileOrHunk)
    else Ok(Contents(s.files, s.ignored))
  }

  /** One marker line: recorded on the current file. */
  function ReadMarker(s: Reader): (r: Result<Reader, DiffError>)
    requires s.Valid()
    ensures r.Ok? ==> r.value.Valid() && r.value.counters == s.counters
  {
    if s.files == [] then Err(MisplacedMarker)
    else
      var file :- RecordMarker(s.Current());
      Ok(s.WithCurrent(file))
  }

  /** One line inside a hunk that still wants lines. */
  function ReadInside(s: Reader, line: string): (r: Result<Reader, DiffError>)
    requires s.Valid() && s.counters.Some?
    ensures r.Ok? ==> r.value.Valid() && r.value.counters.Some?
  {
    if line == MARKER then ReadMarker(s)
    else if !IsBodyLine(line) then Err(MalformedHunkContent)
    else
      var c := s.counters.value;
      var next :- Step(BodyKind(line), c);
      Ok(s.WithCurrent(AppendLine(s.Current(), NumberedLine(line, c.oldLine, c.newLine))).(counters := Some(next)))
  }

  /** A pair of file headers. */
  function ReadFileHeaders(rules: PathRules, s: Reader, oldHeader: string,
      newHeader: string): (r: Result<Reader, DiffError>)
    requires |oldHeader| >= 4 && |newHeader| >= 4
    requires s.counters.None?
    ensures r.Ok? ==> r.value.Valid() && r.value.counters.None?
  {
    var file :- OpenFile(rules, oldHeader, newHeader);
    if rules.fold(file.path) in s.identities then Err(DuplicateIdentity)
    else Ok(s.(files := s.files + [file], identities := s.identities + {rules.fold(file.path)}))
  }

  /** One line outside hunks that does not start a file. */
  function ReadOutside(s: Reader, line: string): (r: Result<Reader, DiffError>)
    requires s.Valid() && s.counters.None?
    ensures r.Ok? ==> r.value.Valid()
  {
    if "---" <= line || "+++" <= line then Err(UnsupportedHeader)
    else if "@@" <= line then
      if s.files == [] then Err(MalformedHunk)
      else
        var hunk :- OpenHunk(line);
        Ok(s.WithCurrent(AppendHunk(s.Current(), hunk)).(counters := Some(HunkCounters(hunk))))
    else if IsBodyLine(line) || line == MARKER then Err(ContentOutsideHunk)
    else Ok(s.(ignored := s.ignored || line != ""))
  }

  /**
   Everything the reader does with the lines that are left. A hunk whose counters
   have run out is closed without taking a line unless that line is a marker.
   */
  function Run(rules: PathRules, s: Reader, lines: seq<string>): Result<Contents, DiffError>
    requires s.Valid()
    decreases |lines|, if s.counters.Some? then 1 else 0
  {
    if lines == [] then Finish(s)
    else if s.counters.Some? then
      if s.counters.value.Exhausted() then
        if lines[0] == MARKER then
          var next :- ReadMarker(s);
          Run(rules, next.(counters := None), lines[1..])
        else Run(rules, s.(counters := None), lines)
      else
        var next :- ReadInside(s, lines[0]);
        Run(rules, next, lines[1..])
    else if "--- " <= lines[0] then
      if s.files != [] && s.Current().hunks == [] then Err(FileHasNoHunk)
      else if !IsHeaderPair(lines) then Err(HeadersNotPaired)
      else
        var next :- ReadFileHeaders(rules, s, lines[0], lines[1]);
        Run(rules, next, lines[2..])
    else
      var next :- ReadOutside(s, lines[0]);
      Run(rules, next, lines[1..])
  }

  // One step of the reader at each kind of line, with errors passed on.

  /** What the reader does after a step: pass its error on, or go on with the lines that are left. */
  function Continue(rules: PathRules, step: Result<Reader, DiffError>, rest: seq<string>): Result<Contents, DiffError>
    requires step.Ok? ==> step.value.Valid()
  {
    if step.Err? then Err(step.error) else Run(rules, step.value, rest)
  }

  lemma AtInside(rules: PathRules, s: Reader, lines: seq<string>)
    requires s.Valid() && s.counters.Some? && !s.counters.value.Exhausted() && lines != []
    ensures Run(rules, s, lines) == Continue(rules, ReadInside(s, lines[0]), lines[1..])
  {
  }

  lemma AtHunkEnd(rules: PathRules, s: Reader, lines: seq<string>)
    requires s.Valid() && s.counters.Some? && s.counters.value.Exhausted() && lines != []
    ensures Run(rules, s, lines) ==
            if lines[0] != MARKER then Run(rules, s.(counters := None), lines)
            else if ReadMarker(s).Err? then Err(ReadMarker(s).error)
            else Run(rules, ReadMarker(s).value.(counters := None), lines[1..])
  {
  }

  lemma AtFileHeader(rules: PathRules, s: Reader, lines: seq<string>)
    requires s.Valid() && s.counters.None? && lines != [] && "--- " <= lines[0]
    ensures Run(rules, s, lines) ==
            if s.files != [] && s.Current().hunks == [] then Err(FileHasNoHunk)
            else if !IsHeaderPair(lines) then Err(HeadersNotPaired)
            else Continue(rules, ReadFileHeaders(rules, s, lines[0], lines[1]), lines[2..])
  {
  }

  lemma AtOutside(rules: PathRules, s: Reader, lines: seq<string>)
    requires s.Valid() && s.counters.None? && lines != [] && !("--- " <= lines[0])
    ensures Run(rules, s, lines) == Continue(rules, ReadOutside(s, lines[0]), lines[1..])
  {
  }

  lemma AtEnd(rules: PathRules, s: Reader)
    requires s.Valid()
    ensures Run(rules, s, []) == Finish(s)
  {
  }

  /** The value `parse_unified_diff` returns for a text, or the error it raises. */
  function Parse(rules: PathRules, text: string): Result<ParsedDiff, DiffError> {
    if '\0' in text then Err(ContainsNul)
    else
      var normalized := NormalizeNewlines(text);
      var contents :- Run(rules, START, Split(normalized));
      Ok(ParsedDiff(normalized, contents.files, contents.ignored))
  }
}
