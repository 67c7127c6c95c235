/**
 The header lines of a unified diff, written out: what a hunk header says, with its counts or
 without, and which pairs of file headers are accepted (app/agent/patches.py:9-12, 145-206,
 241-247, 319-340).
 */
module DiffHeaders {
  import opened Wrappers
  import opened TextLines
  import opened UnifiedDiff

  // ---------------------------------------------------------------- hunk headers

  /** A start and perhaps a count, as digits. */
  datatype Range = Range(start: string, count: Option<string>)

  predicate Digits(s: string) {
    s != "" && AllDigits(s)
  }

  predicate ValidRange(range: Range) {
    && Digits(range.start) && (range.start == "0" || range.start[0] != '0')
    && (range.count.Some? ==> Digits(range.count.value))
  }

  function Text(range: Range): string {
    range.start + if range.count.None? then "" else "," + range.count.value
  }

  /** `@@ -range +range @@`, and nothing more or a space and any heading. */
  predicate SaysHunk(line: string, before: Range, after: Range, heading: string) {
    && ValidRange(before) && ValidRange(after)
    && (heading == "" || heading[0] == ' ')
    && line == "@@ -" + Text(before) + " +" + Text(after) + " @@" + heading
  }

  /** Digits before something that is none. */
  lemma {:induction false} DigitsEnd(digits: string, rest: string)
    requires AllDigits(digits) && (rest != "" ==> !IsDigit(rest[0]))
    ensures DigitPrefix(digits + rest) == |digits|
    ensures (digits + rest)[..|digits|] == digits && (digits + rest)[|digits|..] == rest
  {
    if digits == "" {
      assert digits + rest == rest;
    } else {
      assert digits[0] in digits;
      assert (digits + rest)[1..] == digits[1..] + rest;
      DigitsEnd(digits[1..], rest);
    }
  }

  lemma RangeReads(range: Range, rest: string)
    requires ValidRange(range) && rest != "" && rest[0] == ' '
    ensures ReadRange(Text(range) + rest) == Some(RangeText(range.start, range.count, rest))
  {
    hide DigitPrefix, AllDigits;
    var start := range.start;
    if range.count.None? {
      assert Text(range) + rest == start + rest;
      DigitsEnd(start, rest);
      assert (start + rest)[0] == start[0];
    } else {
      var count := range.count.value;
      var tail := "," + (count + rest);
      assert Text(range) + rest == start + tail;
      DigitsEnd(start, tail);
      DigitsEnd(count, rest);
      assert tail[1..] == count + rest;
      assert (start + tail)[0] == start[0];
    }
  }

  /** What was read of a range stands there. */
  lemma RangeStands(s: string)
    requires ReadRange(s).Some?
    ensures var read := ReadRange(s).value;
            var range := Range(read.start, read.count);
            ValidRange(range) && s == Text(range) + read.rest
  {
    hide DigitPrefix, AllDigits;
    var read, n := ReadRange(s).value, DigitPrefix(s);
    assert s == s[..n] + s[n..];
    assert read.start == s[..n] && Digits(read.start) && (read.start == "0" || read.start[0] != '0');
    var tail := s[n..];
    if read.count.Some? {
      var m := DigitPrefix(tail[1..]);
      assert read.count.value == tail[1..][..m] && read.rest == tail[1..][m..] && Digits(read.count.value);
      CommaAndCount(read.start, tail, m);
    } else {
      assert read.rest == tail && s == (read.start + "") + tail;
    }
  }

  lemma CommaAndCount(start: string, tail: string, m: nat)
    requires "," <= tail && m <= |tail[1..]|
    ensures start + tail == (start + ("," + tail[1..][..m])) + tail[1..][m..]
  {
  }

  lemma Drop(a: string, b: string)
    ensures a <= a + b && (a + b)[|a|..] == b
  {
  }

  /** A line that says a hunk is matched as it says. */
  lemma HeaderMatches(line: string, before: Range, after: Range, heading: string)
    requires SaysHunk(line, before, after, heading)
    ensures MatchHunkHeader(line) ==
            Some(HeaderText(RangeText(before.start, before.count, " +" + (Text(after) + (" @@" + heading))),
                            RangeText(after.start, after.count, " @@" + heading)))
  {
    hide ReadRange, ValidRange;
    var tail := " @@" + heading;
    var middle := " +" + (Text(after) + tail);
    HeaderParts(line, Text(before), Text(after), heading);
    Drop("@@ -", Text(before) + middle);
    RangeReads(before, middle);
    Drop(" +", Text(after) + tail);
    RangeReads(after, tail);
    Drop(" @@", heading);
  }

  lemma HeaderParts(line: string, before: string, after: string, heading: string)
    requires line == "@@ -" + before + " +" + after + " @@" + heading
    ensures line == "@@ -" + (before + (" +" + (after + (" @@" + heading))))
  {
  }

  /** A line that is matched says a hunk. */
  lemma MatchedSays(line: string) returns (before: Range, after: Range, heading: string)
    requires MatchHunkHeader(line).Some?
    ensures SaysHunk(line, before, after, heading)
  {
    hide ReadRange, ValidRange, Text;
    var read := MatchHunkHeader(line).value;
    before := Range(read.before.start, read.before.count);
    after := Range(read.after.start, read.after.count);
    heading := read.after.rest[3..];
    RangeStands(line[4..]);
    RangeStands(read.before.rest[2..]);
    assert line == "@@ -" + line[4..];
    assert read.before.rest == " +" + read.before.rest[2..];
    assert read.after.rest == " @@" + heading;
  }

  predicate TooLong(range: Range) {
    |range.start| > 18 || (range.count.Some? && |range.count.value| > 18)
  }

  /** The range has lines, and starts at zero. */
  predicate ZeroStart(range: Range)
    requires ValidRange(range)
  {
    NumeralValue(range.start) == 0 && (range.count.None? || NumeralValue(range.count.value) > 0)
  }

  /** The number of lines of a range: what its count says, and one without a count. */
  predicate Counts(range: Range, n: nat)
    requires ValidRange(range)
  {
    if range.count.None? then n == 1 else n == NumeralValue(range.count.value)
  }

  /** What a header line that says a hunk is read as. */
  lemma HunkHeaderReads(line: string, before: Range, after: Range, heading: string)
    requires SaysHunk(line, before, after, heading)
    ensures OpenHunk(line) == Err(CoordinateTooLarge) <==> TooLong(before) || TooLong(after)
    ensures OpenHunk(line) == Err(InvalidZeroStart) <==>
              !TooLong(before) && !TooLong(after) && (ZeroStart(before) || ZeroStart(after))
    ensures OpenHunk(line).Ok? <==> !TooLong(before) && !TooLong(after) && !ZeroStart(before) && !ZeroStart(after)
    ensures OpenHunk(line).Ok? ==>
              var hunk := OpenHunk(line).value;
              && hunk.oldStart == NumeralValue(before.start) && Counts(before, hunk.oldCount)
              && hunk.newStart == NumeralValue(after.start) && Counts(after, hunk.newCount)
              && hunk.lines == []
  {
    hide MatchHunkHeader, NumeralValue, AllDigits;
    HeaderMatches(line, before, after, heading);
  }

  /** A line opens a hunk exactly when it says one whose numbers are in order. */
  lemma HunkHeaderExact(line: string)
    ensures OpenHunk(line).Ok? <==>
            exists before, after, heading ::
              && SaysHunk(line, before, after, heading)
              && !TooLong(before) && !TooLong(after) && !ZeroStart(before) && !ZeroStart(after)
    ensures OpenHunk(line) == Err(MalformedHunk) <==> !exists before, after, heading :: SaysHunk(line, before, after, heading)
  {
    hide OpenHunk, SaysHunk, TooLong, ZeroStart;
    if before, after, heading :| SaysHunk(line, before, after, heading) {
      SaidIsValid(line, before, after, heading);
      HunkHeaderReads(line, before, after, heading);
      forall b, a, h | SaysHunk(line, b, a, h) ensures b == before && a == after {
        SaidOnce(line, b, a, h, before, after, heading);
      }
    } else {
      Unmatched(line);
    }
  }

  lemma SaidIsValid(line: string, before: Range, after: Range, heading: string)
    requires SaysHunk(line, before, after, heading)
    ensures ValidRange(before) && ValidRange(after)
  {
  }

  /** A line says one hunk at most. */
  lemma SaidOnce(line: string, b: Range, a: Range, h: string, before: Range, after: Range, heading: string)
    requires SaysHunk(line, b, a, h) && SaysHunk(line, before, after, heading)
    ensures b == before && a == after && h == heading
  {
    hide MatchHunkHeader, ValidRange, SaysHunk, Text;
    HeaderMatches(line, b, a, h);
    HeaderMatches(line, before, after, heading);
    Drop(" @@", h);
    Drop(" @@", heading);
  }

  lemma Unmatched(line: string)
    requires !exists before, after, heading :: SaysHunk(line, before, after, heading)
    ensures OpenHunk(line) == Err(MalformedHunk)
  {
    hide MatchHunkHeader, SaysHunk;
    if MatchHunkHeader(line).Some? {
      var before, after, heading := MatchedSays(line);
    }
  }

  /** `@@ -1 +1 @@` is one line for one line. */
  lemma OmittedCounts()
    ensures OpenHunk("@@ -1 +1 @@") == Ok(Hunk(1, 1, 1, 1, []))
  {
    var one := Range("1", None);
    OneDigitValue();
    assert SaysHunk("@@ -1 +1 @@", one, one, "");
    HunkHeaderReads("@@ -1 +1 @@", one, one, "");
  }

  lemma OneDigitValue()
    ensures AllDigits("1") && NumeralValue("1") == 1
  {
    assert "1"[..0] == "";
  }

  // ---------------------------------------------------------------- paths

  /** The part of the path between two slashes, or its ends. */
  predicate Between(path: string, i: int, j: int) {
    0 <= i <= j <= |path| && (i == 0 || path[i - 1] == '/') && (j == |path| || path[j] == '/') && '/' !in path[i..j]
  }

  /** The parts of a path are what stands between its slashes. */
  lemma PartsAreBetween(path: string, part: string)
    ensures part in PathParts(path) <==> exists i, j :: Between(path, i, j) && path[i..j] == part
  {
    FirstPart(path);
    if part in PathParts(path) {
      if part == PathParts(path)[0] {
        assert Between(path, 0, |part|) && path[0..|part|] == part;
      } else {
        assert part in PathParts(path)[1..];
        var i, j := LaterPartStands(path, part);
      }
    }
    if i, j :| Between(path, i, j) && path[i..j] == part {
      StandingIsPart(path, i, j);
    }
  }

  lemma {:induction false} FirstPart(path: string)
    ensures '/' !in PathParts(path)[0] && PathParts(path)[0] <= path
    ensures |PathParts(path)[0]| == |path| || path[|PathParts(path)[0]|] == '/'
  {
    if path != "" && path[0] != '/' {
      FirstPart(path[1..]);
    }
  }

  /** A part after the first one stands after a slash. */
  lemma {:induction false} LaterPartStands(path: string, part: string) returns (i: nat, j: nat)
    requires part in PathParts(path)[1..]
    ensures i > 0 && Between(path, i, j) && path[i..j] == part
    decreases |path|
  {
    var tail := path[1..];
    var a, b;
    if path[0] == '/' && part == PathParts(tail)[0] {
      FirstPart(tail);
      a, b := 0, |part|;
      assert tail[..|part|] == part;
    } else {
      LaterParts(path, part);
      a, b := LaterPartStands(tail, part);
    }
    i, j := a + 1, b + 1;
    assert path[i..j] == tail[a..b];
  }

  lemma LaterParts(path: string, part: string)
    requires part in PathParts(path)[1..]
    requires path[0] == '/' ==> part != PathParts(path[1..])[0]
    ensures part in PathParts(path[1..])[1..]
  {
    var rest := PathParts(path[1..]);
    assert rest == [rest[0]] + rest[1..];
    assert path[0] == '/' ==> PathParts(path)[1..] == rest;
  }

  lemma BetweenLater(path: string, i: int, j: int)
    requires Between(path, i, j) && i > 0
    ensures Between(path[1..], i - 1, j - 1) && path[i..j] == path[1..][i - 1..j - 1]
  {
    var tail := path[1..];
    assert forall k :: 0 <= k < |tail| ==> tail[k] == path[k + 1];
    assert |path[i..j]| == |tail[i - 1..j - 1]|;
  }

  lemma {:induction false} StandingIsPart(path: string, i: int, j: int)
    requires Between(path, i, j)
    ensures if i == 0 then PathParts(path)[0] == path[..j] else path[i..j] in PathParts(path)[1..]
    decreases |path|
  {
    if path == "" {
    } else if i == 0 {
      if path[0] == '/' {
        assert j == 0;
      } else {
        assert j > 0;
        assert path[1..][0..j - 1] == path[0..j][1..];
        assert forall c :: c in path[1..][0..j - 1] ==> c in path[0..j];
        StandingIsPart(path[1..], 0, j - 1);
        assert path[..j] == [path[0]] + path[1..][..j - 1];
      }
    } else {
      BetweenLater(path, i, j);
      StandingIsPart(path[1..], i - 1, j - 1);
      if path[0] == '/' {
        assert PathParts(path)[1..] == PathParts(path[1..]);
        assert i == 1 ==> path[1..][..j - 1] == path[1..][0..j - 1];
      } else {
        assert PathParts(path)[1..] == PathParts(path[1..])[1..];
      }
    }
  }

  /** A path is accepted exactly when it is portable, not empty, has no backslash and no control character, and
      nothing between its slashes is empty, a dot or two dots. */
  lemma PathExact(rules: PathRules, path: string)
    ensures ValidPath(rules, path) <==>
            && path != "" && rules.portable(path)
            && (forall c :: c in path ==> c != '\\' && 32 <= c as int && !(127 <= c as int <= 159))
            && (forall i, j :: Between(path, i, j) ==> path[i..j] != "" && path[i..j] != "." && path[i..j] != "..")
  {
    hide PathParts;
    forall i, j | Between(path, i, j) ensures path[i..j] in PathParts(path) {
      PartsAreBetween(path, path[i..j]);
    }
    forall part | part in PathParts(path) ensures exists i, j :: Between(path, i, j) && path[i..j] == part {
      PartsAreBetween(path, part);
    }
  }

  // ---------------------------------------------------------------- file headers

  /** The value of a file header names this path on its side, or no file. */
  predicate NamesPath(rules: PathRules, value: string, side: char, path: Option<string>) {
    if path.None? then value == "/dev/null" else value == [side, '/'] + path.value && ValidPath(rules, path.value)
  }

  /** A pair of headers is accepted exactly when it names one valid path, on one side or both. */
  lemma FileHeadersExact(rules: PathRules, oldHeader: string, newHeader: string)
    requires "--- " <= oldHeader && "+++ " <= newHeader
    ensures OpenFile(rules, oldHeader, newHeader).Ok? <==>
            exists before, after ::
              && NamesPath(rules, oldHeader[4..], 'a', before) && NamesPath(rules, newHeader[4..], 'b', after)
              && (before.Some? || after.Some?) && (before.Some? && after.Some? ==> before == after)
    ensures OpenFile(rules, oldHeader, newHeader).Ok? ==>
              var file := OpenFile(rules, oldHeader, newHeader).value;
              && NamesPath(rules, oldHeader[4..], 'a', file.oldPath) && NamesPath(rules, newHeader[4..], 'b', file.newPath)
              && Some(file.path) in {file.oldPath, file.newPath}
              && !file.oldNoNewline && !file.newNoNewline && file.lines == [] && file.hunks == []
  {
    hide ValidPath, HeaderPath;
    var old', new' := oldHeader[4..], newHeader[4..];
    forall path ensures NamesPath(rules, old', 'a', path) <==> HeaderPath(rules, old', "a/") == Ok(path) {
      HeaderPathExact(rules, old', 'a', path);
    }
    forall path ensures NamesPath(rules, new', 'b', path) <==> HeaderPath(rules, new', "b/") == Ok(path) {
      HeaderPathExact(rules, new', 'b', path);
    }
    assert "a/" == ['a', '/'] && "b/" == ['b', '/'];
  }

  lemma HeaderPathExact(rules: PathRules, value: string, side: char, path: Option<string>)
    requires side == 'a' || side == 'b'
    ensures NamesPath(rules, value, side, path) <==> HeaderPath(rules, value, [side, '/']) == Ok(path)
  {
    hide ValidPath;
    var prefix := [side, '/'];
    if prefix <= value {
      assert value == prefix + value[2..];
      assert value[0] == side && value != "/dev/null";
    }
    if path.Some? && value == prefix + path.value {
      assert value[2..] == path.value;
    }
  }

  // ---------------------------------------------------------------- line endings

  /** However its lines are terminated, a text is read alike. */
  lemma ParseIgnoresEndings(rules: PathRules, lines: seq<string>, ends: seq<string>)
    requires |lines| == |ends| + 1 && ProperEnds(lines, ends)
    requires forall line :: line in lines ==> '\0' !in line && '\r' !in line && '\n' !in line
    ensures Parse(rules, Ended(lines, ends)) ==
            match Run(rules, START, lines)
            case Err(error) => Err(error)
            case Ok(contents) => Ok(ParsedDiff(Join(lines, "\n"), contents.files, contents.ignored))
  {
    hide Run, Ended, ProperEnds;
    EndedNormalized(lines, ends);
    EndedChars(lines, ends);
    SplitJoin(lines);
  }
}
