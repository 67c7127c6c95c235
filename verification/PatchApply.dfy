/**
 Applying one parsed file to its source bytes: the hunk loop, what makes it succeed,
 and where its lines land (app/agent/static_checks.py:872-930).
 */
module PatchApply {
  import opened Wrappers
  import opened Utf8
  import opened UnifiedDiff
  import opened DiffShape
  import opened SourceText

  // ---------------------------------------------------------------- sides of a hunk

  /** Contents of the context and removed lines. */
  function OldSide(lines: seq<DiffLine>): seq<string> {
    if lines == [] then []
    else
      var n := |lines| - 1;
      OldSide(lines[..n]) + (if lines[n].OnOldSide() then [lines[n].content] else [])
  }

  /** Contents of the context and added lines. */
  function NewSide(lines: seq<DiffLine>): seq<string> {
    if lines == [] then []
    else
      var n := |lines| - 1;
      NewSide(lines[..n]) + (if lines[n].OnNewSide() then [lines[n].content] else [])
  }

  lemma {:induction false} SideLengths(lines: seq<DiffLine>)
    ensures |OldSide(lines)| == SideLength(lines, Added) && |NewSide(lines)| == SideLength(lines, Removed)
  {
    if lines != [] {
      SideLengths(lines[..|lines| - 1]);
    }
  }

  /** Where the old side starts; a range of no lines names the line before it. */
  function OldIndex(hunk: Hunk): int {
    if hunk.oldCount > 0 then hunk.oldStart - 1 else hunk.oldStart
  }

  function NewIndex(hunk: Hunk): int {
    if hunk.newCount > 0 then hunk.newStart - 1 else hunk.newStart
  }

  // ---------------------------------------------------------------- the hunk loop

  /**
   The output from `cursor` on, when `emitted` lines are out: source up to the old side
   of the next hunk, its new side, and so on. None where the loop raises.
   */
  function ApplyHunks(source: seq<string>, hunks: seq<Hunk>, cursor: nat, emitted: nat): Option<seq<string>>
    requires cursor <= |source|
    decreases |hunks|
  {
    if hunks == [] then Some(source[cursor..])
    else
      var hunk := hunks[0];
      var at := OldIndex(hunk);
      if at < cursor || at > |source| then None
      else if emitted + (at - cursor) != NewIndex(hunk) then None
      else if !(OldSide(hunk.lines) <= source[at..]) then None
      else
        var added := NewSide(hunk.lines);
        var rest :- ApplyHunks(source, hunks[1..], at + |OldSide(hunk.lines)|, emitted + (at - cursor) + |added|);
        Some(source[cursor..at] + added + rest)
  }

  lemma LoopEnd(source: seq<string>, cursor: nat, emitted: nat)
    requires cursor <= |source|
    ensures ApplyHunks(source, [], cursor, emitted) == Some(source[cursor..])
  {
  }

  /** Where the loop gives up on the first hunk. */
  lemma LoopStops(source: seq<string>, hunks: seq<Hunk>, cursor: nat, emitted: nat)
    requires hunks != [] && cursor <= |source|
    requires var at := OldIndex(hunks[0]);
             at < cursor || at > |source| || emitted + (at - cursor) != NewIndex(hunks[0]) || !(OldSide(hunks[0].lines) <= source[at..])
    ensures ApplyHunks(source, hunks, cursor, emitted).None?
  {
  }

  /** What the loop does with the first hunk when it fits. */
  lemma LoopStep(source: seq<string>, hunks: seq<Hunk>, cursor: nat, emitted: nat)
    requires hunks != [] && cursor <= OldIndex(hunks[0]) <= |source|
    requires emitted + (OldIndex(hunks[0]) - cursor) == NewIndex(hunks[0])
    requires OldSide(hunks[0].lines) <= source[OldIndex(hunks[0])..]
    ensures var gap, added := source[cursor..OldIndex(hunks[0])], NewSide(hunks[0].lines);
            var rest := ApplyHunks(source, hunks[1..], OldIndex(hunks[0]) + |OldSide(hunks[0].lines)|, emitted + |gap| + |added|);
            && (rest.None? ==> ApplyHunks(source, hunks, cursor, emitted).None?)
            && (rest.Some? ==> ApplyHunks(source, hunks, cursor, emitted) == Some(gap + added + rest.value))
  {
    hide OldSide, NewSide, OldIndex, NewIndex;
  }

  // ---------------------------------------------------------------- exactness

  function OldSides(hunks: seq<Hunk>): (r: seq<seq<string>>)
    ensures |r| == |hunks|
  {
    seq(|hunks|, i requires 0 <= i < |hunks| => OldSide(hunks[i].lines))
  }

  function NewSides(hunks: seq<Hunk>): (r: seq<seq<string>>)
    ensures |r| == |hunks|
  {
    seq(|hunks|, i requires 0 <= i < |hunks| => NewSide(hunks[i].lines))
  }

  /** gap, side, gap, side, ..., gap. */
  function Weave(gaps: seq<seq<string>>, sides: seq<seq<string>>): seq<string>
    requires |gaps| == |sides| + 1
  {
    if sides == [] then gaps[0] else gaps[0] + sides[0] + Weave(gaps[1..], sides[1..])
  }

  /**
   The source is the gaps with the old sides between them; before each hunk, the old
   side starts at its declared old index and the new side at its declared new index.
   `o` and `n` count lines that come before the whole.
   */
  predicate SplitsAt(source: seq<string>, hunks: seq<Hunk>, gaps: seq<seq<string>>, o: nat, n: nat) {
    && |gaps| == |hunks| + 1
    && source == Weave(gaps, OldSides(hunks))
    && forall k :: 0 <= k < |hunks| ==> Placed(hunks, gaps, k, o, n)
  }

  predicate Placed(hunks: seq<Hunk>, gaps: seq<seq<string>>, k: nat, o: nat, n: nat)
    requires |gaps| == |hunks| + 1 && k < |hunks|
  {
    && o + |Weave(gaps[..k + 1], OldSides(hunks)[..k])| == OldIndex(hunks[k])
    && n + |Weave(gaps[..k + 1], NewSides(hunks)[..k])| == NewIndex(hunks[k])
  }

  predicate Splits(source: seq<string>, hunks: seq<Hunk>, gaps: seq<seq<string>>) {
    SplitsAt(source, hunks, gaps, 0, 0)
  }

  lemma PlacedFirst(hunks: seq<Hunk>, gaps: seq<seq<string>>, o: nat, n: nat)
    requires hunks != [] && |gaps| == |hunks| + 1
    ensures Placed(hunks, gaps, 0, o, n) <==> o + |gaps[0]| == OldIndex(hunks[0]) && n + |gaps[0]| == NewIndex(hunks[0])
  {
  }

  lemma PlacedNext(hunks: seq<Hunk>, gaps: seq<seq<string>>, k: nat, o: nat, n: nat)
    requires |gaps| == |hunks| + 1 && 0 < k < |hunks|
    ensures Placed(hunks, gaps, k, o, n) <==>
            Placed(hunks[1..], gaps[1..], k - 1, o + |gaps[0]| + |OldSide(hunks[0].lines)|, n + |gaps[0]| + |NewSide(hunks[0].lines)|)
  {
    hide OldIndex, NewIndex;
    var tail := gaps[1..][..k];
    assert gaps[..k + 1][1..] == tail;
    assert OldSides(hunks)[..k][1..] == OldSides(hunks[1..])[..k - 1];
    assert NewSides(hunks)[..k][1..] == NewSides(hunks[1..])[..k - 1];
  }

  /** A split is a first gap, the first hunk in place, and a split of what follows. */
  lemma SplitsFirst(source: seq<string>, hunks: seq<Hunk>, gaps: seq<seq<string>>, o: nat, n: nat)
    requires hunks != [] && |gaps| == |hunks| + 1
    ensures var front := gaps[0] + OldSide(hunks[0].lines);
            SplitsAt(source, hunks, gaps, o, n) <==>
            && o + |gaps[0]| == OldIndex(hunks[0])
            && n + |gaps[0]| == NewIndex(hunks[0])
            && front <= source
            && SplitsAt(source[|front|..], hunks[1..], gaps[1..], o + |front|, n + |gaps[0]| + |NewSide(hunks[0].lines)|)
  {
    hide Placed;
    var front := gaps[0] + OldSide(hunks[0].lines);
    var n' := n + |gaps[0]| + |NewSide(hunks[0].lines)|;
    PlacedFirst(hunks, gaps, o, n);
    assert OldSides(hunks)[1..] == OldSides(hunks[1..]);
    var rest := Weave(gaps[1..], OldSides(hunks[1..]));
    assert Weave(gaps, OldSides(hunks)) == front + rest;
    assert source == front + rest <==> front <= source && source[|front|..] == rest;
    forall k | 0 < k < |hunks| ensures Placed(hunks, gaps, k, o, n) <==> Placed(hunks[1..], gaps[1..], k - 1, o + |front|, n') {
      PlacedNext(hunks, gaps, k, o, n);
    }
    var later, laterGaps, o' := hunks[1..], gaps[1..], o + |front|;
    if forall k :: 0 <= k < |later| ==> Placed(later, laterGaps, k, o', n') {
      forall k | 0 < k < |hunks| ensures Placed(hunks, gaps, k, o, n) {
        assert Placed(later, laterGaps, k - 1, o', n');
      }
    }
    if forall k :: 0 <= k < |hunks| ==> Placed(hunks, gaps, k, o, n) {
      forall k | 0 <= k < |later| ensures Placed(later, laterGaps, k, o', n') {
        assert Placed(hunks, gaps, k + 1, o, n);
      }
    }
  }

  /** When the loop succeeds, its source splits and its output is the same gaps with the new sides. */
  lemma {:induction false} LoopSplits(source: seq<string>, hunks: seq<Hunk>, cursor: nat,
      emitted: nat) returns (gaps: seq<seq<string>>)
    requires cursor <= |source| && ApplyHunks(source, hunks, cursor, emitted).Some?
    ensures |gaps| == |hunks| + 1 && SplitsAt(source[cursor..], hunks, gaps, cursor, emitted)
    ensures ApplyHunks(source, hunks, cursor, emitted).value == Weave(gaps, NewSides(hunks))
    decreases |hunks|
  {
    hide SplitsAt, Weave, OldIndex, NewIndex, OldSide, NewSide;
    if hunks == [] {
      gaps := [source[cursor..]];
      NoHunks(source[cursor..], gaps, cursor, emitted);
    } else {
      var hunk := hunks[0];
      var at := OldIndex(hunk);
      var next := at + |OldSide(hunk.lines)|;
      var out := emitted + (at - cursor) + |NewSide(hunk.lines)|;
      var rest := LoopSplits(source, hunks[1..], next, out);
      gaps := [source[cursor..at]] + rest;
      assert gaps[1..] == rest;
      var front := source[cursor..at] + OldSide(hunk.lines);
      assert source[cursor..][|front|..] == source[next..];
      SplitsFirst(source[cursor..], hunks, gaps, cursor, emitted);
      WeaveFirst(gaps, hunks);
    }
  }

  lemma WeaveFirst(gaps: seq<seq<string>>, hunks: seq<Hunk>)
    requires hunks != [] && |gaps| == |hunks| + 1
    ensures Weave(gaps, NewSides(hunks)) == gaps[0] + NewSide(hunks[0].lines) + Weave(gaps[1..], NewSides(hunks[1..]))
  {
    assert NewSides(hunks)[1..] == NewSides(hunks[1..]);
  }

  lemma NoHunks(source: seq<string>, gaps: seq<seq<string>>, o: nat, n: nat)
    ensures SplitsAt(source, [], gaps, o, n) <==> gaps == [source]
    ensures gaps == [source] ==> Weave(gaps, NewSides([])) == source
  {
  }

  /** When the source splits, the loop succeeds with the new sides in the gaps. */
  lemma {:induction false} SplitsLoop(source: seq<string>, hunks: seq<Hunk>, cursor: nat, emitted: nat,
      gaps: seq<seq<string>>)
    requires cursor <= |source| && SplitsAt(source[cursor..], hunks, gaps, cursor, emitted)
    ensures ApplyHunks(source, hunks, cursor, emitted) == Some(Weave(gaps, NewSides(hunks)))
    decreases |hunks|
  {
    hide Weave, OldIndex, NewIndex, OldSide, NewSide;
    if hunks == [] {
      NoHunks(source[cursor..], gaps, cursor, emitted);
    } else {
      var hunk := hunks[0];
      SplitsFirst(source[cursor..], hunks, gaps, cursor, emitted);
      var front := gaps[0] + OldSide(hunk.lines);
      var at := cursor + |gaps[0]|;
      var next := cursor + |front|;
      assert source[cursor..][|front|..] == source[next..];
      assert source[at..next] == OldSide(hunk.lines) && source[cursor..at] == gaps[0];
      assert OldSide(hunk.lines) <= source[at..];
      SplitsLoop(source, hunks[1..], next, emitted + |gaps[0]| + |NewSide(hunk.lines)|, gaps[1..]);
      WeaveFirst(gaps, hunks);
    }
  }

  /** The hunk loop is exact. */
  lemma HunksExact(source: seq<string>, hunks: seq<Hunk>)
    ensures ApplyHunks(source, hunks, 0, 0).Some? <==> exists gaps :: Splits(source, hunks, gaps)
    ensures forall gaps :: Splits(source, hunks, gaps) ==> ApplyHunks(source, hunks, 0, 0) == Some(Weave(gaps, NewSides(hunks)))
  {
    hide ApplyHunks;
    assert source[0..] == source;
    if ApplyHunks(source, hunks, 0, 0).Some? {
      var gaps := LoopSplits(source, hunks, 0, 0);
      assert Splits(source, hunks, gaps);
    }
    forall gaps | Splits(source, hunks, gaps) ensures ApplyHunks(source, hunks, 0, 0) == Some(Weave(gaps, NewSides(hunks))) {
      SplitsLoop(source, hunks, 0, 0, gaps);
    }
  }

  // ---------------------------------------------------------------- where lines land

  lemma {:induction false} SideAt(lines: seq<DiffLine>, i: nat)
    requires i < |lines|
    ensures lines[i].OnOldSide() ==>
              SideLength(lines[..i], Added) < |OldSide(lines)| && OldSide(lines)[SideLength(lines[..i], Added)] == lines[i].content
    ensures lines[i].OnNewSide() ==>
              SideLength(lines[..i], Removed) < |NewSide(lines)| && NewSide(lines)[SideLength(lines[..i], Removed)] == lines[i].content
    decreases |lines|
  {
    var n := |lines| - 1;
    if i < n {
      SideAt(lines[..n], i);
      assert lines[..n][..i] == lines[..i];
    } else {
      SideLengths(lines[..n]);
    }
  }

  /** The line stands where its numbers say, in the source and in the output. */
  predicate Lands(line: DiffLine, source: seq<string>, output: seq<string>) {
    && (line.oldLine.Some? ==> 1 <= line.oldLine.value <= |source| && source[line.oldLine.value - 1] == line.content)
    && (line.newLine.Some? ==> 1 <= line.newLine.value <= |output| && output[line.newLine.value - 1] == line.content)
  }

  /** The lines of one hunk land when its sides stand at its indexes. */
  lemma HunkLands(hunk: Hunk, source: seq<string>, output: seq<string>)
    requires HunkShape(hunk)
    requires 0 <= OldIndex(hunk) <= |source| && OldSide(hunk.lines) <= source[OldIndex(hunk)..]
    requires 0 <= NewIndex(hunk) <= |output| && NewSide(hunk.lines) <= output[NewIndex(hunk)..]
    ensures forall i :: 0 <= i < |hunk.lines| ==> Lands(hunk.lines[i], source, output)
  {
    hide OldSide, NewSide, SideLength;
    forall i | 0 <= i < |hunk.lines| ensures Lands(hunk.lines[i], source, output) {
      SideAt(hunk.lines, i);
      SideLengths(hunk.lines);
      assert NumberedAfter(hunk.lines[i], hunk.lines[..i], hunk.oldStart, hunk.newStart);
    }
  }

  lemma {:induction false} HunksLand(source: seq<string>, hunks: seq<Hunk>, cursor: nat, front: seq<string>, k: nat)
    requires cursor <= |source| && ApplyHunks(source, hunks, cursor, |front|).Some?
    requires forall hunk :: hunk in hunks ==> HunkShape(hunk)
    requires k < |hunks|
    ensures var output := front + ApplyHunks(source, hunks, cursor, |front|).value;
            forall i :: 0 <= i < |hunks[k].lines| ==> Lands(hunks[k].lines[i], source, output)
    decreases |hunks|
  {
    hide HunkShape, OldSide, NewSide, Lands, OldIndex, NewIndex;
    var hunk := hunks[0];
    assert hunk in hunks;
    var at := OldIndex(hunk);
    var before := front + source[cursor..at];
    var next := before + NewSide(hunk.lines);
    var rest := ApplyHunks(source, hunks[1..], at + |OldSide(hunk.lines)|, |next|).value;
    var output := front + ApplyHunks(source, hunks, cursor, |front|).value;
    assert output == next + rest;
    if k == 0 {
      assert |before| == NewIndex(hunk);
      assert output[|before|..] == NewSide(hunk.lines) + rest;
      HunkLands(hunk, source, output);
    } else {
      HunksLand(source, hunks[1..], at + |OldSide(hunk.lines)|, next, k - 1);
    }
  }

  /** Each context or added line sits at index `new_line - 1` of the output. */
  lemma LinesLand(source: seq<string>, file: FileDiff)
    requires FileShape(file) && ApplyHunks(source, file.hunks, 0, 0).Some?
    ensures forall line :: line in file.lines ==> Lands(line, source, ApplyHunks(source, file.hunks, 0, 0).value)
  {
    hide HunkShape, ApplyHunks, Lands;
    var output := ApplyHunks(source, file.hunks, 0, 0).value;
    assert [] + output == output;
    forall line | line in file.lines ensures Lands(line, source, output) {
      var k, i := HunkOfLine(file.hunks, line);
      HunksLand(source, file.hunks, 0, [], k);
    }
  }

  lemma {:induction false} HunkOfLine(hunks: seq<Hunk>, line: DiffLine) returns (k: nat, i: nat)
    requires line in HunkLines(hunks)
    ensures k < |hunks| && i < |hunks[k].lines| && hunks[k].lines[i] == line
    decreases |hunks|
  {
    var n := |hunks| - 1;
    if line in hunks[n].lines {
      k := n;
      i :| 0 <= i < |hunks[n].lines| && hunks[n].lines[i] == line;
    } else {
      k, i := HunkOfLine(hunks[..n], line);
    }
  }

  // ---------------------------------------------------------------- conservation

  /** Lines of one kind. */
  function CountKind(lines: seq<DiffLine>, kind: LineKind): nat {
    if lines == [] then 0
    else CountKind(lines[..|lines| - 1], kind) + (if lines[|lines| - 1].kind == kind then 1 else 0)
  }

  lemma {:induction false} SidesBalance(lines: seq<DiffLine>)
    ensures |NewSide(lines)| - |OldSide(lines)| == CountKind(lines, Added) - CountKind(lines, Removed)
  {
    if lines != [] {
      SidesBalance(lines[..|lines| - 1]);
    }
  }

  lemma {:induction false} CountAppend(a: seq<DiffLine>, b: seq<DiffLine>, kind: LineKind)
    ensures CountKind(a + b, kind) == CountKind(a, kind) + CountKind(b, kind)
    decreases |b|
  {
    if b == [] {
      assert a + b == a;
    } else {
      assert (a + b)[..|a + b| - 1] == a + b[..|b| - 1];
      CountAppend(a, b[..|b| - 1], kind);
    }
  }

  lemma {:induction false} HunkLinesFirst(hunks: seq<Hunk>)
    requires hunks != []
    ensures HunkLines(hunks) == hunks[0].lines + HunkLines(hunks[1..])
  {
    var n := |hunks| - 1;
    if n > 0 {
      HunkLinesFirst(hunks[..n]);
      assert hunks[..n][1..] == hunks[1..][..n - 1];
      assert hunks[1..][n - 1] == hunks[n];
    }
  }

  /** The output has as many lines more than the source as lines were added more than removed. */
  lemma {:induction false} HunksConserve(source: seq<string>, hunks: seq<Hunk>, cursor: nat, emitted: nat)
    requires cursor <= |source| && ApplyHunks(source, hunks, cursor, emitted).Some?
    ensures |ApplyHunks(source, hunks, cursor, emitted).value| - (|source| - cursor) ==
            CountKind(HunkLines(hunks), Added) - CountKind(HunkLines(hunks), Removed)
    decreases |hunks|
  {
    hide OldSide, NewSide, CountKind, HunkLines, OldIndex, NewIndex;
    if hunks == [] {
      NoLines();
    } else {
      var hunk := hunks[0];
      var at := OldIndex(hunk);
      HunksConserve(source, hunks[1..], at + |OldSide(hunk.lines)|, emitted + (at - cursor) + |NewSide(hunk.lines)|);
      SidesBalance(hunk.lines);
      HunkLinesFirst(hunks);
      CountAppend(hunk.lines, HunkLines(hunks[1..]), Added);
      CountAppend(hunk.lines, HunkLines(hunks[1..]), Removed);
    }
  }

  lemma NoLines()
    ensures HunkLines([]) == [] && forall kind: LineKind :: CountKind([], kind) == 0
  {
  }

  // ---------------------------------------------------------------- one file

  datatype Applied = Conflict | Deleted | Content(data: seq<byte>)

  /** The changes of the final newline that are refused before the hunks are tried. */
  predicate EofAllowed(file: FileDiff, source: Source) {
    var touches := exists line :: line in file.lines && line.oldLine == Some(|source.lines|);
    && !(file.oldNoNewline && source.finalNewline)
    && !(file.oldNoNewline && file.oldNoNewlineLine != Some(|source.lines|))
    && !(touches && !source.finalNewline && !file.oldNoNewline)
    && !(file.newNoNewline && source.finalNewline)
  }

  /** The bytes of an output, or a conflict over its end. */
  function WriteOutput(file: FileDiff, output: seq<string>, newline: Newline, finalNewline: bool): Applied {
    if file.newNoNewline && file.newNoNewlineLine != Some(|output|) then Conflict
    else if !file.newNoNewline && file.oldNoNewline && !file.IsDeleted() then Conflict
    else
      var encoded := EncodeSource(output, newline, finalNewline && !file.newNoNewline);
      if !file.IsDeleted() then Content(encoded) else if encoded != [] then Conflict else Deleted
  }

  function ApplyLines(file: FileDiff, lines: seq<string>, newline: Newline, finalNewline: bool): Applied {
    match ApplyHunks(lines, file.hunks, 0, 0)
    case None => Conflict
    case Some(output) => WriteOutput(file, output, newline, finalNewline)
  }

  /** `_apply_file_patch`: None is a file that does not exist. */
  function ApplyFile(file: FileDiff, source: Option<seq<byte>>): Applied {
    if file.IsAdded() then
      if source.Some? then Conflict else ApplyLines(file, [], Lf, !file.newNoNewline)
    else if source.None? then Conflict
    else
      match DecodeSource(source.value)
      case None => Conflict
      case Some(decoded) =>
        if !EofAllowed(file, decoded) then Conflict
        else ApplyLines(file, decoded.lines, decoded.newline, decoded.finalNewline)
  }

  // ---------------------------------------------------------------- what is accepted

  /** The lines a patch starts from; none when a file is missing, in the way, or no text. */
  function StartsFrom(file: FileDiff, source: Option<seq<byte>>): Option<Source> {
    match source
    case None => if file.oldPath.None? then Some(Source([], Lf, true)) else None
    case Some(data) => if file.oldPath.None? then None else DecodeSource(data)
  }

  /** What the end of an existing file allows: a marker on the old side stands at an end without a newline, a patch
      that touches such an end has one there, and no newline is taken from an end that has one. */
  ghost predicate OldEndAllowed(file: FileDiff, lines: seq<string>, finalNewline: bool) {
    if finalNewline then !file.oldNoNewline && !file.newNoNewline
    else if file.oldNoNewline then file.oldNoNewlineLine == Some(|lines|)
    else forall line :: line in file.lines ==> line.oldLine != Some(|lines|)
  }

  /** What the end of the output allows: a marker on the new side stands there, and one on the old side alone is for
      deletions only. */
  predicate NewEndAllowed(file: FileDiff, output: seq<string>) {
    if file.newNoNewline then file.newNoNewlineLine == Some(|output|)
    else file.oldNoNewline ==> file.newPath.None?
  }

  /** The hunks split the lines, and nothing is wrong at either end; a deleted file keeps no text. */
  ghost predicate AcceptedWith(file: FileDiff, source: Option<seq<byte>>, gaps: seq<seq<string>>) {
    && StartsFrom(file, source).Some?
    && var start := StartsFrom(file, source).value;
    && Splits(start.lines, file.hunks, gaps)
    && (source.Some? ==> OldEndAllowed(file, start.lines, start.finalNewline))
    && var output := Weave(gaps, NewSides(file.hunks));
    && NewEndAllowed(file, output)
    && (file.newPath.None? ==> output == [] || (output == [""] && (file.newNoNewline || !start.finalNewline)))
  }

  /** The gaps with the new sides, in the style of the source, with a last newline unless the source has none or the
      patch takes it. */
  ghost function BytesWith(file: FileDiff, source: Option<seq<byte>>, gaps: seq<seq<string>>): seq<byte>
    requires AcceptedWith(file, source, gaps)
  {
    var start := StartsFrom(file, source).value;
    EncodeSource(Weave(gaps, NewSides(file.hunks)), start.newline, start.finalNewline && !file.newNoNewline)
  }

  /** A file patch is accepted exactly so, and then gives these bytes, or deletes. */
  lemma ApplyExact(file: FileDiff, source: Option<seq<byte>>)
    ensures !ApplyFile(file, source).Conflict? <==> exists gaps :: AcceptedWith(file, source, gaps)
    ensures forall gaps :: AcceptedWith(file, source, gaps) ==>
              ApplyFile(file, source) == if file.newPath.None? then Deleted else Content(BytesWith(file, source, gaps))
  {
    hide Placed, Weave, OldSides, NewSides, ApplyHunks, DecodeSource, EncodeSource, EofAllowed, OldEndAllowed,
        WriteOutput;
    if StartsFrom(file, source).Some? {
      var start := StartsFrom(file, source).value;
      HunksExact(start.lines, file.hunks);
      OldEndExact(file, start);
      ApplyFromStart(file, source);
      forall gaps | Splits(start.lines, file.hunks, gaps)
        ensures AcceptedWith(file, source, gaps) <==> !ApplyFile(file, source).Conflict?
        ensures AcceptedWith(file, source, gaps) ==>
                  ApplyFile(file, source) == if file.newPath.None? then Deleted else Content(BytesWith(file, source, gaps))
      {
        WriteExact(file, Weave(gaps, NewSides(file.hunks)), start.newline, start.finalNewline, source.None?);
      }
    }
  }

  lemma OldEndExact(file: FileDiff, start: Source)
    ensures EofAllowed(file, start) <==> OldEndAllowed(file, start.lines, start.finalNewline)
  {
  }

  lemma ApplyFromStart(file: FileDiff, source: Option<seq<byte>>)
    requires StartsFrom(file, source).Some?
    ensures var start := StartsFrom(file, source).value;
            ApplyFile(file, source) ==
            if source.Some? && !EofAllowed(file, start) then Conflict
            else
              match ApplyHunks(start.lines, file.hunks, 0, 0)
              case None => Conflict
              case Some(output) => WriteOutput(file, output, start.newline, start.finalNewline && (source.Some? || !file.newNoNewline))
  {
    hide ApplyHunks, DecodeSource, EofAllowed, WriteOutput;
  }

  lemma WriteExact(file: FileDiff, output: seq<string>, newline: Newline, finalNewline: bool, created: bool)
    ensures var written := WriteOutput(file, output, newline, finalNewline && (!created || !file.newNoNewline));
            && (!written.Conflict? <==>
                 && NewEndAllowed(file, output)
                 && (file.newPath.None? ==> output == [] || (output == [""] && (file.newNoNewline || !finalNewline))))
            && (!written.Conflict? ==>
                 written == if file.newPath.None? then Deleted else Content(EncodeSource(output, newline, finalNewline && !file.newNoNewline)))
  {
    hide EncodeSource;
    EncodedToNothing(output, newline, finalNewline && !file.newNoNewline);
  }

  /** Nothing is written for no lines, and for one empty line without a newline. */
  lemma EncodedToNothing(lines: seq<string>, newline: Newline, finalNewline: bool)
    ensures EncodeSource(lines, newline, finalNewline) == [] <==> lines == [] || (lines == [""] && !finalNewline)
  {
    if lines != [] {
      assert EncodeLines(lines)[0] == Encode(lines[0]);
      if |lines| == 1 {
        assert EncodeLines(lines[1..]) == [];
      }
    }
  }
}
