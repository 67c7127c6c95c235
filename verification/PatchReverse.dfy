/**
 Undoing a patch with the same patch, its old and new sides swapped: which applied
 patches can be undone (app/agent/static_checks.py:852-930).
 */
module PatchReverse {
  import opened Wrappers
  import opened TextLines
  import opened Utf8
  import opened UnifiedDiff
  import opened DiffShape
  import opened SourceText
  import opened PatchApply

  function SwapLine(line: DiffLine): DiffLine {
    DiffLine(match line.kind case Context => Context case Added => Removed case Removed => Added,
             line.content, line.newLine, line.oldLine)
  }

  function SwapLines(lines: seq<DiffLine>): (r: seq<DiffLine>)
    ensures |r| == |lines|
  {
    seq(|lines|, i requires 0 <= i < |lines| => SwapLine(lines[i]))
  }

  function SwapHunk(hunk: Hunk): Hunk {
    Hunk(hunk.newStart, hunk.newCount, hunk.oldStart, hunk.oldCount, SwapLines(hunk.lines))
  }

  function SwapHunks(hunks: seq<Hunk>): (r: seq<Hunk>)
    ensures |r| == |hunks|
  {
    seq(|hunks|, i requires 0 <= i < |hunks| => SwapHunk(hunks[i]))
  }

  /** The patch read from right to left. */
  function Swap(file: FileDiff): FileDiff {
    FileDiff(file.path, file.newPath, file.oldPath, SwapLines(file.lines), SwapHunks(file.hunks),
             file.newNoNewline, file.oldNoNewline, file.newNoNewlineLine, file.oldNoNewlineLine)
  }

  // ---------------------------------------------------------------- the hunk loop, reversed

  lemma {:induction false} SwapSides(lines: seq<DiffLine>)
    ensures OldSide(SwapLines(lines)) == NewSide(lines) && NewSide(SwapLines(lines)) == OldSide(lines)
    decreases |lines|
  {
    if lines != [] {
      var n := |lines| - 1;
      SwapSides(lines[..n]);
      assert SwapLines(lines)[..n] == SwapLines(lines[..n]);
    }
  }

  lemma SwapHunkSides(hunks: seq<Hunk>)
    ensures OldSides(SwapHunks(hunks)) == NewSides(hunks) && NewSides(SwapHunks(hunks)) == OldSides(hunks)
    ensures forall k :: 0 <= k < |hunks| ==> OldIndex(SwapHunks(hunks)[k]) == NewIndex(hunks[k])
    ensures forall k :: 0 <= k < |hunks| ==> NewIndex(SwapHunks(hunks)[k]) == OldIndex(hunks[k])
  {
    forall k | 0 <= k < |hunks|
      ensures OldSides(SwapHunks(hunks))[k] == NewSides(hunks)[k] && NewSides(SwapHunks(hunks))[k] == OldSides(hunks)[k]
    {
      SwapSides(hunks[k].lines);
    }
  }

  /** A split of the source is a split of the output for the swapped hunks. */
  lemma HunksReverse(source: seq<string>, hunks: seq<Hunk>)
    requires ApplyHunks(source, hunks, 0, 0).Some?
    ensures ApplyHunks(ApplyHunks(source, hunks, 0, 0).value, SwapHunks(hunks), 0, 0) == Some(source)
  {
    hide ApplyHunks, Weave, OldIndex, NewIndex, OldSides, NewSides, SwapHunks;
    var output := ApplyHunks(source, hunks, 0, 0).value;
    HunksExact(source, hunks);
    var gaps :| Splits(source, hunks, gaps);
    SwapHunkSides(hunks);
    var swapped := SwapHunks(hunks);
    forall k | 0 <= k < |swapped| ensures Placed(swapped, gaps, k, 0, 0) {
      assert Placed(hunks, gaps, k, 0, 0);
    }
    assert Splits(output, swapped, gaps);
    HunksExact(output, swapped);
  }

  /** A line more at the end of the source is a line more at the end of the output. */
  lemma {:induction false} LastLineStays(source: seq<string>, hunks: seq<Hunk>, cursor: nat, emitted: nat, last: string)
    requires cursor <= |source| && ApplyHunks(source, hunks, cursor, emitted).Some?
    ensures ApplyHunks(source + [last], hunks, cursor, emitted) == Some(ApplyHunks(source, hunks, cursor, emitted).value + [last])
    decreases |hunks|
  {
    hide OldIndex, NewIndex, OldSide, NewSide;
    var more := source + [last];
    if hunks == [] {
      assert more[cursor..] == source[cursor..] + [last];
    } else {
      var at := OldIndex(hunks[0]);
      var removed, added := OldSide(hunks[0].lines), NewSide(hunks[0].lines);
      assert more[at..] == source[at..] + [last];
      assert removed <= more[at..];
      assert more[cursor..at] == source[cursor..at];
      LoopStep(source, hunks, cursor, emitted);
      LoopStep(more, hunks, cursor, emitted);
      LastLineStays(source, hunks[1..], at + |removed|, emitted + (at - cursor) + |added|, last);
      var gap := source[cursor..at];
      var rest := ApplyHunks(source, hunks[1..], at + |removed|, emitted + |gap| + |added|).value;
      assert gap + added + rest + [last] == gap + added + (rest + [last]);
    }
  }

  // ---------------------------------------------------------------- which hunks reach the end

  /** Where the old side of the hunk ends in the source. */
  function OldEnd(hunk: Hunk): int {
    OldIndex(hunk) + |OldSide(hunk.lines)|
  }

  function NewEnd(hunk: Hunk): int {
    NewIndex(hunk) + |NewSide(hunk.lines)|
  }

  lemma SwapEnds(hunks: seq<Hunk>, n: int)
    ensures (forall hunk :: hunk in SwapHunks(hunks) ==> OldEnd(hunk) <= n) <==> (forall hunk :: hunk in hunks ==> NewEnd(hunk) <= n)
  {
    hide OldIndex, NewIndex, OldSides, NewSides, SwapHunks, OldSide, NewSide;
    SwapHunkSides(hunks);
    forall k | 0 <= k < |hunks| ensures OldEnd(SwapHunks(hunks)[k]) == NewEnd(hunks[k]) {
      SideOf(hunks, k);
      SideOf(SwapHunks(hunks), k);
    }
    if forall hunk :: hunk in SwapHunks(hunks) ==> OldEnd(hunk) <= n {
      forall k | 0 <= k < |hunks| ensures NewEnd(hunks[k]) <= n {
        assert SwapHunks(hunks)[k] in SwapHunks(hunks);
      }
    }
  }

  lemma SideOf(hunks: seq<Hunk>, k: nat)
    requires k < |hunks|
    ensures OldSides(hunks)[k] == OldSide(hunks[k].lines) && NewSides(hunks)[k] == NewSide(hunks[k].lines)
  {
  }

  /** Without its last line the source still takes the hunks exactly when none of them reaches that line. */
  lemma {:induction false} LastLineGoes(source: seq<string>, hunks: seq<Hunk>, cursor: nat, emitted: nat, last: string)
    requires cursor <= |source| && ApplyHunks(source + [last], hunks, cursor, emitted).Some?
    ensures ApplyHunks(source, hunks, cursor, emitted).Some? <==> forall hunk :: hunk in hunks ==> OldEnd(hunk) <= |source|
    decreases |hunks|
  {
    hide OldIndex, NewIndex, OldSide, NewSide;
    if hunks != [] {
      var more, at := source + [last], OldIndex(hunks[0]);
      var removed, added := OldSide(hunks[0].lines), NewSide(hunks[0].lines);
      if OldEnd(hunks[0]) <= |source| {
        assert more[at..][..|removed|] == source[at..][..|removed|];
        assert removed <= source[at..];
        LoopStep(source, hunks, cursor, emitted);
        LastLineGoes(source, hunks[1..], at + |removed|, emitted + (at - cursor) + |added|, last);
        assert forall hunk :: hunk in hunks <==> hunk == hunks[0] || hunk in hunks[1..];
      } else {
        LoopStops(source, hunks, cursor, emitted);
        assert hunks[0] in hunks;
      }
    }
  }

  lemma {:induction false} HunksEnd(source: seq<string>, hunks: seq<Hunk>, cursor: nat, emitted: nat)
    requires cursor <= |source| && ApplyHunks(source, hunks, cursor, emitted).Some?
    ensures forall hunk :: hunk in hunks ==> OldEnd(hunk) <= |source|
    decreases |hunks|
  {
    hide OldIndex, NewIndex, OldSide, NewSide;
    if hunks != [] {
      var at := OldIndex(hunks[0]);
      HunksEnd(source, hunks[1..], at + |OldSide(hunks[0].lines)|, emitted + (at - cursor) + |NewSide(hunks[0].lines)|);
      assert forall hunk :: hunk in hunks <==> hunk == hunks[0] || hunk in hunks[1..];
    }
  }

  /** Hunks that leave nothing take the source up to its end. */
  lemma {:induction false} TakenToEnd(source: seq<string>, hunks: seq<Hunk>, cursor: nat, emitted: nat) returns (k: nat)
    requires cursor < |source| && ApplyHunks(source, hunks, cursor, emitted) == Some([])
    ensures k < |hunks| && OldSide(hunks[k].lines) != [] && OldEnd(hunks[k]) == |source|
    decreases |hunks|
  {
    hide OldIndex, NewIndex, OldSide, NewSide;
    var at := OldIndex(hunks[0]);
    var next := at + |OldSide(hunks[0].lines)|;
    if next == |source| {
      k := 0;
    } else {
      var rest := TakenToEnd(source, hunks[1..], next, emitted + (at - cursor) + |NewSide(hunks[0].lines)|);
      k := rest + 1;
    }
  }

  lemma {:induction false} LastOldLine(lines: seq<DiffLine>) returns (i: nat)
    requires OldSide(lines) != []
    ensures i < |lines| && lines[i].OnOldSide() && SideLength(lines[..i], Added) == |OldSide(lines)| - 1
    decreases |lines|
  {
    var n := |lines| - 1;
    if lines[n].OnOldSide() {
      i := n;
      SideLengths(lines[..n]);
    } else {
      i := LastOldLine(lines[..n]);
      assert lines[..n][..i] == lines[..i];
    }
  }

  lemma LastNumber(hunk: Hunk) returns (line: DiffLine)
    requires HunkShape(hunk) && OldSide(hunk.lines) != []
    ensures line in hunk.lines && OldEnd(hunk) >= 0 && line.oldLine == Some(OldEnd(hunk))
  {
    hide OldSide, SideLength;
    var i := LastOldLine(hunk.lines);
    SideLengths(hunk.lines);
    line := hunk.lines[i];
    assert NumberedAfter(line, hunk.lines[..i], hunk.oldStart, hunk.newStart);
  }

  /** A patch that leaves nothing removes the last line. */
  lemma EmptyOutputTakesLast(source: seq<string>, file: FileDiff)
    requires FileShape(file) && source != [] && ApplyHunks(source, file.hunks, 0, 0) == Some([])
    ensures exists line :: line in file.lines && line.oldLine == Some(|source|)
  {
    hide ApplyHunks, OldSide, OldEnd, HunkShape, HunkLines, CleanLines;
    var k := TakenToEnd(source, file.hunks, 0, 0);
    assert file.hunks[k] in file.hunks;
    var line := LastNumber(file.hunks[k]);
    HunkLineIn(file.hunks, file.hunks[k], line);
  }

  // ---------------------------------------------------------------- outputs are plain

  lemma {:induction false} PlainSides(lines: seq<DiffLine>)
    requires CleanLines(lines)
    ensures PlainLines(NewSide(lines))
    decreases |lines|
  {
    if lines != [] {
      PlainSides(lines[..|lines| - 1]);
      assert lines[|lines| - 1] in lines;
    }
  }

  lemma {:induction false} PlainOutput(source: seq<string>, hunks: seq<Hunk>, cursor: nat, emitted: nat)
    requires cursor <= |source| && ApplyHunks(source, hunks, cursor, emitted).Some?
    requires PlainLines(source) && forall hunk :: hunk in hunks ==> CleanLines(hunk.lines)
    ensures PlainLines(ApplyHunks(source, hunks, cursor, emitted).value)
    decreases |hunks|
  {
    hide OldIndex, NewIndex, OldSide, NewSide, CleanLines, PlainLine;
    if hunks != [] {
      var at := OldIndex(hunks[0]);
      assert hunks[0] in hunks;
      PlainSides(hunks[0].lines);
      PlainOutput(source, hunks[1..], at + |OldSide(hunks[0].lines)|, emitted + (at - cursor) + |NewSide(hunks[0].lines)|);
    }
  }

  lemma FileOutputPlain(source: seq<string>, file: FileDiff)
    requires FileShape(file) && PlainLines(source) && ApplyHunks(source, file.hunks, 0, 0).Some?
    ensures PlainLines(ApplyHunks(source, file.hunks, 0, 0).value)
  {
    hide ApplyHunks, HunkShape;
    forall hunk | hunk in file.hunks ensures CleanLines(hunk.lines) {
      forall line | line in hunk.lines ensures CleanContent(line.content) {
        HunkLineIn(file.hunks, hunk, line);
      }
    }
    PlainOutput(source, file.hunks, 0, 0);
  }

  /** A line of the swapped patch with this old number is a line of the patch with this new number. */
  lemma SwappedTouch(file: FileDiff, n: nat)
    ensures (exists line :: line in Swap(file).lines && line.oldLine == Some(n)) <==>
            (exists line :: line in file.lines && line.newLine == Some(n))
  {
    if line :| line in file.lines && line.newLine == Some(n) {
      var i :| 0 <= i < |file.lines| && file.lines[i] == line;
      assert Swap(file).lines[i].oldLine == Some(n);
    }
    if line :| line in Swap(file).lines && line.oldLine == Some(n) {
      var i :| 0 <= i < |file.lines| && Swap(file).lines[i] == line;
      assert file.lines[i].newLine == Some(n);
    }
  }

  // ---------------------------------------------------------------- bytes

  lemma EmptySource()
    ensures DecodeSource([]) == Some(Source([""], Lf, false))
  {
    assert Decode([]) == Ok("");
    assert WithoutCrLf("") == "" && ReplaceCrLf("") == "" && Split("") == [""];
  }

  /** Lines and then an empty unterminated line are the bytes of the lines terminated. */
  lemma TrailingEmptyLine(lines: seq<string>)
    requires lines != []
    ensures EncodeSource(lines + [""], Lf, false) == EncodeSource(lines, Lf, true)
  {
    hide Encode, Join;
    EncodeSourceText(lines + [""], Lf, false);
    EncodeSourceText(lines, Lf, true);
  }

  /** Whether lines written in this style are the bytes they were read from. */
  lemma StyleMatters(data: seq<byte>, style: Newline)
    requires DecodeSource(data).Some?
    ensures var source := DecodeSource(data).value;
            EncodeSource(source.lines, style, source.finalNewline) == data <==> style == source.newline || (|source.lines| == 1 && !source.finalNewline)
  {
    hide DecodeSource, EncodeSource, PlainLine;
    var source := DecodeSource(data).value;
    DecodeThenEncode(data);
    DecodedFaithful(data);
    EncodeThenDecode(source.lines, style, source.finalNewline);
    if |source.lines| == 1 && !source.finalNewline {
      OneLine(source.lines, style, source.newline);
    }
  }

  lemma OneLine(lines: seq<string>, a: Newline, b: Newline)
    requires |lines| == 1
    ensures EncodeSource(lines, a, false) == EncodeSource(lines, b, false)
  {
    assert |EncodeLines(lines)| == 1;
  }

  lemma DecodedFaithful(data: seq<byte>)
    requires DecodeSource(data).Some?
    ensures Faithful(DecodeSource(data).value.lines, DecodeSource(data).value.finalNewline)
    ensures DecodeSource(data).value.newline == CrLf ==> |DecodeSource(data).value.lines| > 1 || DecodeSource(data).value.finalNewline
  {
    hide Decode, Encode, Join, EncodeSource, ReplaceCrLf, Split;
    var source := DecodeSource(data).value;
    DecodeThenEncode(data);
    var text := Decode(data).value;
    SplitEndsEmpty(ReplaceCrLf(text));
    if source.newline == CrLf {
      DecodeSourceAccepts(data);
      CrLfSplits(text);
    }
  }

  lemma {:induction false} CrLfSplits(s: string)
    requires HasCrLf(s)
    ensures |Split(ReplaceCrLf(s))| > 1
    decreases |s|
  {
    hide HasCrLf;
    CrLfNonEmpty(s);
    ReplacePrepend(s);
    CrLfFront(s);
    if "\r\n" <= s {
      SplitPrepend('\n', ReplaceCrLf(s[2..]));
    } else {
      CrLfSplits(s[1..]);
      SplitPrepend(s[0], ReplaceCrLf(s[1..]));
    }
  }

  lemma CrLfNonEmpty(s: string)
    requires HasCrLf(s)
    ensures s != ""
  {
  }

  lemma EncodedEmpty(lines: seq<string>, newline: Newline, finalNewline: bool)
    ensures EncodeSource([], newline, finalNewline) == []
    ensures finalNewline && lines != [] ==> EncodeSource(lines, newline, finalNewline) != []
  {
  }

  // ---------------------------------------------------------------- undoing a modification

  /** What applying a modification to decoded lines gives. */
  lemma ModificationApplies(file: FileDiff, data: seq<byte>, result: seq<byte>)
    requires !file.IsAdded() && !file.IsDeleted()
    requires ApplyFile(file, Some(data)) == Content(result)
    ensures DecodeSource(data).Some?
    ensures var source := DecodeSource(data).value;
            && EofAllowed(file, source)
            && ApplyHunks(source.lines, file.hunks, 0, 0).Some?
            && var output := ApplyHunks(source.lines, file.hunks, 0, 0).value;
            && (file.newNoNewline ==> file.newNoNewlineLine == Some(|output|))
            && (file.oldNoNewline ==> file.newNoNewline)
            && result == EncodeSource(output, source.newline, source.finalNewline)
  {
    hide DecodeSource, ApplyHunks, EncodeSource;
  }

  /** No line of a patch with an empty output stands on the new side. */
  lemma EmptyOutputTouchesNothing(source: seq<string>, file: FileDiff, n: nat)
    requires FileShape(file) && ApplyHunks(source, file.hunks, 0, 0) == Some([])
    ensures !exists line :: line in file.lines && line.newLine == Some(n)
  {
    hide ApplyHunks, FileShape;
    LinesLand(source, file);
  }

  /** The swapped patch on the bytes of an empty output. */
  lemma UndoToFull(file: FileDiff, source: Source)
    requires FileShape(file) && file.oldPath.Some? && file.newPath.Some? && !file.oldNoNewline && !file.newNoNewline
    requires ApplyHunks(source.lines, file.hunks, 0, 0) == Some([]) && source.lines != []
    ensures ApplyFile(Swap(file), Some([])) == Content(EncodeSource(source.lines, Lf, true))
  {
    hide ApplyHunks, EncodeSource, DecodeSource, SwapHunks, SwapLines, FileShape;
    EmptySource();
    EmptyOutputTouchesNothing(source.lines, file, 1);
    SwappedTouch(file, 1);
    HunksReverse(source.lines, file.hunks);
    LastLineStays([], SwapHunks(file.hunks), 0, 0, "");
    assert [] + [""] == [""];
    TrailingEmptyLine(source.lines);
  }

  /** The swapped patch on the bytes of an output whose end is kept. */
  lemma UndoLines(file: FileDiff, source: Source, output: seq<string>)
    requires file.oldPath.Some? && file.newPath.Some? && EofAllowed(file, source)
    requires ApplyHunks(source.lines, file.hunks, 0, 0) == Some(output)
    requires Faithful(output, source.finalNewline)
    requires file.newNoNewline ==> file.newNoNewlineLine == Some(|output|)
    requires file.oldNoNewline ==> file.newNoNewline
    ensures var touches := exists line :: line in file.lines && line.newLine == Some(|output|);
            var style := if |output| > 1 || source.finalNewline then source.newline else Lf;
            ApplyFile(Swap(file), Some(EncodeSource(output, source.newline, source.finalNewline))) ==
            if (touches && !source.finalNewline && !file.newNoNewline) || (file.newNoNewline && !file.oldNoNewline) then Conflict
            else Content(EncodeSource(source.lines, style, source.finalNewline))
  {
    hide ApplyHunks, EncodeSource, DecodeSource, SwapHunks, SwapLines, Faithful;
    EncodeThenDecode(output, source.newline, source.finalNewline);
    SwappedTouch(file, |output|);
    HunksReverse(source.lines, file.hunks);
  }

  /**
   On a newline-terminated source every applied modification can be undone, also when
   nothing is left of the file, unless CRLF endings were lost with its last line.
   */
  lemma TerminatedReversible(file: FileDiff, data: seq<byte>, result: seq<byte>)
    requires FileShape(file) && !file.IsAdded() && !file.IsDeleted()
    requires ApplyFile(file, Some(data)) == Content(result)
    requires DecodeSource(data).value.finalNewline
    ensures ApplyFile(Swap(file), Some(result)) == Content(data) <==> DecodeSource(data).value.newline == Lf || result != []
  {
    hide ApplyFile, ApplyHunks, EncodeSource, DecodeSource, FileShape, EofAllowed, Faithful, Swap;
    ModificationApplies(file, data, result);
    var source := DecodeSource(data).value;
    var output := ApplyHunks(source.lines, file.hunks, 0, 0).value;
    TerminatedFlags(file, source);
    DecodeThenEncode(data);
    FileOutputPlain(source.lines, file);
    EncodedEmpty(output, source.newline, true);
    if output == [] {
      UndoToFull(file, source);
      StyleMatters(data, Lf);
    } else {
      OutputFaithful(output);
      UndoLines(file, source, output);
    }
  }

  lemma TerminatedFlags(file: FileDiff, source: Source)
    requires EofAllowed(file, source) && source.finalNewline
    ensures !file.oldNoNewline && !file.newNoNewline
  {
  }

  lemma OutputFaithful(lines: seq<string>)
    requires lines != [] && PlainLines(lines)
    ensures Faithful(lines, true)
  {
  }

  /** A marked file leaves the line its marker follows. */
  lemma MarkedNotEmpty(source: seq<string>, file: FileDiff)
    requires FileShape(file) && MarkedLines(file) && file.newNoNewline
    ensures ApplyHunks(source, file.hunks, 0, 0) != Some([])
  {
    hide ApplyHunks, FileShape;
    if ApplyHunks(source, file.hunks, 0, 0) == Some([]) {
      LinesLand(source, file);
      var line :| line in file.lines && line.OnNewSide() && line.newLine == file.newNoNewlineLine;
      SideNumbered(file, line);
      EmptyOutputTouchesNothing(source, file, line.newLine.value);
    }
  }

  lemma SideNumbered(file: FileDiff, line: DiffLine)
    requires FileShape(file) && line in file.lines
    ensures line.OnOldSide() <==> line.oldLine.Some?
    ensures line.OnNewSide() <==> line.newLine.Some?
  {
    hide SideLength;
    var k, i := HunkOfLine(file.hunks, line);
    assert HunkShape(file.hunks[k]);
    assert NumberedAfter(line, file.hunks[k].lines[..i], file.hunks[k].oldStart, file.hunks[k].newStart);
  }

  /** An accepted modification of an unterminated source leaves lines. */
  lemma UnterminatedLeaves(file: FileDiff, source: Source)
    requires FileShape(file) && MarkedLines(file) && EofAllowed(file, source) && source.lines != [] && !source.finalNewline
    requires file.oldNoNewline ==> file.newNoNewline
    ensures ApplyHunks(source.lines, file.hunks, 0, 0) != Some([])
  {
    hide ApplyHunks, FileShape, MarkedLines;
    if ApplyHunks(source.lines, file.hunks, 0, 0) == Some([]) {
      EmptyOutputTakesLast(source.lines, file);
      MarkedNotEmpty(source.lines, file);
    }
  }

  /** Lines that end in an empty one are read back without it, as terminated. */
  lemma TrailingReadBack(lines: seq<string>, newline: Newline)
    requires lines != [] && PlainLines(lines)
    ensures DecodeSource(EncodeSource(lines + [""], newline, false)) == Some(Source(lines, newline, true))
    ensures EncodeSource(lines + [""], newline, false) == EncodeSource(lines, newline, true)
  {
    hide Encode, Join, DecodeSource, PlainLine;
    EncodeSourceText(lines + [""], newline, false);
    EncodeSourceText(lines, newline, true);
    OutputFaithful(lines);
    EncodeThenDecode(lines, newline, true);
  }

  /** The swapped patch on the bytes of an output that ends in an empty line: only an empty file comes back. */
  lemma UndoTrailing(file: FileDiff, source: Source, front: seq<string>)
    requires file.oldPath.Some? && file.newPath.Some? && Faithful(source.lines, false)
    requires ApplyHunks(source.lines, file.hunks, 0, 0) == Some(front + [""])
    requires front != [] && PlainLines(front)
    requires file.oldNoNewline ==> file.newNoNewline
    requires !source.finalNewline && (source.newline == CrLf ==> |source.lines| > 1)
    ensures ApplyFile(Swap(file), Some(EncodeSource(front, source.newline, true)))
         == Content(EncodeSource(source.lines, source.newline, false))
       <==> !file.newNoNewline && forall hunk :: hunk in file.hunks ==> NewEnd(hunk) <= |front|
  {
    hide ApplyHunks, EncodeSource, DecodeSource, SwapHunks, SwapLines, PlainLine, NewEnd, OldEnd, Faithful;
    TrailingReadBack(front, source.newline);
    if !file.newNoNewline {
      HunksReverse(source.lines, file.hunks);
      LastLineGoes(front, SwapHunks(file.hunks), 0, 0, "");
      SwapEnds(file.hunks, |front|);
      if ApplyHunks(front, SwapHunks(file.hunks), 0, 0).Some? {
        var back := ApplyHunks(front, SwapHunks(file.hunks), 0, 0).value;
        LastLineStays(front, SwapHunks(file.hunks), 0, 0, "");
        EmptyComesBack(back, source.lines);
        EncodedEmpty(back, source.newline, true);
        OneEmptyLine();
      }
    }
  }

  lemma EmptyComesBack(back: seq<string>, lines: seq<string>)
    requires Faithful(lines, false) && back + [""] == lines
    ensures back == [] && lines == [""]
  {
    assert lines[|lines| - 1] == "";
  }

  /** What a caller can read off the patch, the bytes and the result: the patch ends the file as it was ended. */
  ghost predicate EndKept(file: FileDiff, before: Source, after: Source) {
    if file.newNoNewline then
      file.oldNoNewline && !after.finalNewline && (before.newline == Lf || |after.lines| > 1)
    else if after.finalNewline then
      forall hunk :: hunk in file.hunks ==> NewEnd(hunk) <= |after.lines|
    else
      && (before.newline == Lf || |after.lines| > 1)
      && !exists line :: line in file.lines && line.newLine == Some(|after.lines|)
  }

  /**
   On an unterminated source every applied modification can be undone exactly when the new
   side ends as the old side does. A result that stays unterminated is flagged on both sides,
   or on neither with no line of the patch at its end, and keeps CRLF endings; a terminated
   one is not flagged, and no hunk reaches the empty line after its last newline.
   */
  lemma UnterminatedReversible(file: FileDiff, data: seq<byte>, result: seq<byte>)
    requires !file.IsAdded() && !file.IsDeleted() && FileShape(file) && MarkedLines(file)
    requires ApplyFile(file, Some(data)) == Content(result)
    requires !DecodeSource(data).value.finalNewline
    ensures DecodeSource(result).Some?
    ensures ApplyFile(Swap(file), Some(result)) == Content(data)
       <==> EndKept(file, DecodeSource(data).value, DecodeSource(result).value)
  {
    hide ApplyFile, ApplyHunks, EncodeSource, DecodeSource, FileShape, EofAllowed, Swap, Faithful, MarkedLines, NewEnd;
    ModificationApplies(file, data, result);
    var source := DecodeSource(data).value;
    var output := ApplyHunks(source.lines, file.hunks, 0, 0).value;
    DecodeThenEncode(data);
    DecodedFaithful(data);
    FileOutputPlain(source.lines, file);
    UnterminatedLeaves(file, source);
    var n := |output| - 1;
    if n > 0 && output[n] == "" {
      assert output[..n] + [""] == output;
      TrailingReadBack(output[..n], source.newline);
      UndoTrailing(file, source, output[..n]);
    } else {
      EndFaithful(output);
      EncodeThenDecode(output, source.newline, false);
      UndoLines(file, source, output);
      StyleMatters(data, if |output| > 1 then source.newline else Lf);
    }
  }

  lemma EndFaithful(lines: seq<string>)
    requires lines != [] && PlainLines(lines) && (|lines| == 1 || lines[|lines| - 1] != "")
    ensures Faithful(lines, false)
  {
  }

  // ---------------------------------------------------------------- creation and deletion

  /** What creating gives. */
  lemma CreationApplies(file: FileDiff, result: seq<byte>)
    requires file.IsAdded() && !file.IsDeleted() && ApplyFile(file, None) == Content(result)
    ensures ApplyHunks([], file.hunks, 0, 0).Some?
    ensures var output := ApplyHunks([], file.hunks, 0, 0).value;
            && (file.newNoNewline ==> file.newNoNewlineLine == Some(|output|))
            && result == EncodeSource(output, Lf, !file.newNoNewline)
  {
    hide ApplyHunks, EncodeSource;
  }

  /** A file that did not exist has no old lines, so no marker follows one. */
  lemma CreationUnmarked(file: FileDiff)
    requires FileShape(file) && MarkedLines(file) && ApplyHunks([], file.hunks, 0, 0).Some?
    ensures !file.oldNoNewline
  {
    hide ApplyHunks, FileShape;
    if file.oldNoNewline {
      LinesLand([], file);
      var line :| line in file.lines && line.OnOldSide() && line.oldLine == file.oldNoNewlineLine;
      SideNumbered(file, line);
    }
  }

  /** The swapped patch on an output that is read back as it is. */
  lemma UndoCreation(file: FileDiff, output: seq<string>)
    requires file.IsAdded() && !file.IsDeleted() && !file.oldNoNewline
    requires ApplyHunks([], file.hunks, 0, 0) == Some(output) && Faithful(output, !file.newNoNewline)
    requires file.newNoNewline ==> file.newNoNewlineLine == Some(|output|)
    ensures ApplyFile(Swap(file), Some(EncodeSource(output, Lf, !file.newNoNewline))) == Deleted
  {
    hide ApplyHunks, EncodeSource, DecodeSource, SwapHunks, SwapLines, Faithful;
    HunksReverse([], file.hunks);
    EncodeThenDecode(output, Lf, !file.newNoNewline);
    EncodedEmpty([], Lf, false);
    EncodedEmpty([], Lf, true);
  }

  /** The swapped patch on the empty file that an empty creation makes. */
  lemma UndoEmptyCreation(file: FileDiff)
    requires FileShape(file) && file.IsAdded() && !file.IsDeleted() && !file.oldNoNewline && !file.newNoNewline
    requires ApplyHunks([], file.hunks, 0, 0) == Some([])
    ensures ApplyFile(Swap(file), Some([])) == Deleted
  {
    hide ApplyHunks, EncodeSource, DecodeSource, SwapHunks, SwapLines, FileShape;
    HunksReverse([], file.hunks);
    EmptySource();
    EmptyOutputTouchesNothing([], file, 1);
    SwappedTouch(file, 1);
    LastLineStays([], SwapHunks(file.hunks), 0, 0, "");
    assert [] + [""] == [""];
    OneEmptyLine();
  }

  /** A created file is deleted by the swapped patch, unless its flagged last line is empty and follows others. */
  lemma CreationReversible(file: FileDiff, result: seq<byte>)
    requires FileShape(file) && MarkedLines(file) && file.IsAdded() && !file.IsDeleted()
    requires ApplyFile(file, None) == Content(result)
    ensures DecodeSource(result).Some?
    ensures ApplyFile(Swap(file), Some(result)) == Deleted <==> !(file.newNoNewline && DecodeSource(result).value.finalNewline)
  {
    hide ApplyFile, ApplyHunks, EncodeSource, DecodeSource, FileShape, MarkedLines, Swap, Faithful, PlainLine;
    CreationApplies(file, result);
    var output := ApplyHunks([], file.hunks, 0, 0).value;
    CreationUnmarked(file);
    FileOutputPlain([], file);
    if output == [] {
      if file.newNoNewline {
        MarkedNotEmpty([], file);
      }
      EncodedEmpty([], Lf, true);
      EmptySource();
      UndoEmptyCreation(file);
    } else if !file.newNoNewline {
      OutputFaithful(output);
      EncodeThenDecode(output, Lf, true);
      UndoCreation(file, output);
    } else {
      var n := |output| - 1;
      if n > 0 && output[n] == "" {
        assert output[..n] + [""] == output;
        TrailingReadBack(output[..n], Lf);
        FlaggedNotFinal(file, result);
      } else {
        EndFaithful(output);
        EncodeThenDecode(output, Lf, false);
        UndoCreation(file, output);
      }
    }
  }

  lemma FlaggedNotFinal(file: FileDiff, result: seq<byte>)
    requires file.IsAdded() && !file.IsDeleted() && file.newNoNewline
    requires DecodeSource(result).Some? && DecodeSource(result).value.finalNewline
    ensures ApplyFile(Swap(file), Some(result)) == Conflict
  {
    hide DecodeSource;
  }

  lemma OneEmptyLine()
    ensures EncodeSource([""], Lf, false) == []
  {
    assert EncodeLines([""]) == [[]] by {
      assert [""][1..] == [];
    }
  }

  /** What a deletion leaves before the file goes: nothing, or of an unterminated file one empty line. */
  lemma DeletionLeaves(file: FileDiff, data: seq<byte>)
    requires file.IsDeleted() && !file.IsAdded() && ApplyFile(file, Some(data)) == Deleted
    ensures DecodeSource(data).Some?
    ensures var source := DecodeSource(data).value;
            && EofAllowed(file, source)
            && ApplyHunks(source.lines, file.hunks, 0, 0).Some?
            && var output := ApplyHunks(source.lines, file.hunks, 0, 0).value;
            && (output == [] || (output == [""] && !source.finalNewline))
            && (file.newNoNewline ==> file.newNoNewlineLine == Some(|output|))
  {
    hide ApplyHunks, EncodeSource, DecodeSource;
    var source := DecodeSource(data).value;
    var output := ApplyHunks(source.lines, file.hunks, 0, 0).value;
    EncodedToNothing(output, source.newline, source.finalNewline && !file.newNoNewline);
  }

  /** The swapped patch on no file, when the patch leaves nothing. */
  lemma UndoDeletion(file: FileDiff, source: Source)
    requires FileShape(file) && MarkedLines(file) && file.IsDeleted() && !file.IsAdded()
    requires EofAllowed(file, source) && source.lines != []
    requires ApplyHunks(source.lines, file.hunks, 0, 0) == Some([])
    ensures ApplyFile(Swap(file), None) == Content(EncodeSource(source.lines, Lf, source.finalNewline))
    ensures forall hunk :: hunk in file.hunks ==> NewEnd(hunk) <= 0
  {
    hide ApplyHunks, EncodeSource, SwapHunks, SwapLines, FileShape, MarkedLines, NewEnd, OldEnd;
    if file.newNoNewline {
      MarkedNotEmpty(source.lines, file);
    }
    EmptyOutputTakesLast(source.lines, file);
    HunksReverse(source.lines, file.hunks);
    HunksEnd([], SwapHunks(file.hunks), 0, 0);
    SwapEnds(file.hunks, 0);
  }

  /** The swapped patch on no file, when the patch leaves an empty line: only an empty file comes back. */
  lemma UndoTrailingDeletion(file: FileDiff, source: Source)
    requires FileShape(file) && MarkedLines(file) && file.IsDeleted() && !file.IsAdded()
    requires Faithful(source.lines, false) && !source.finalNewline && (source.newline == CrLf ==> |source.lines| > 1)
    requires ApplyHunks(source.lines, file.hunks, 0, 0) == Some([""])
    ensures ApplyFile(Swap(file), None) == Content(EncodeSource(source.lines, source.newline, false))
       <==> source.newline == Lf && forall hunk :: hunk in file.hunks ==> NewEnd(hunk) <= 0
  {
    hide ApplyHunks, EncodeSource, SwapHunks, SwapLines, FileShape, MarkedLines, NewEnd, OldEnd, Faithful;
    var swapped := SwapHunks(file.hunks);
    HunksReverse(source.lines, file.hunks);
    assert [] + [""] == [""];
    LastLineGoes([], swapped, 0, 0, "");
    SwapEnds(file.hunks, 0);
    if ApplyHunks([], swapped, 0, 0).Some? {
      var back := ApplyHunks([], swapped, 0, 0).value;
      LastLineStays([], swapped, 0, 0, "");
      EmptyComesBack(back, source.lines);
      HunksReverse([], swapped);
      SwapTwice(file.hunks);
      CreationUnmarked(file);
      if file.newNoNewline {
        MarkedNotEmpty([], file);
      }
      EncodedEmpty([], Lf, true);
      OneEmptyLine();
    }
  }

  lemma SwapTwice(hunks: seq<Hunk>)
    ensures SwapHunks(SwapHunks(hunks)) == hunks
  {
    forall k | 0 <= k < |hunks| ensures SwapHunks(SwapHunks(hunks))[k] == hunks[k] {
      assert SwapLines(SwapLines(hunks[k].lines)) == hunks[k].lines;
    }
  }

  /** A deleted file is created again by the swapped patch exactly when its style was LF and the patch leaves no line. */
  lemma DeletionReversible(file: FileDiff, data: seq<byte>)
    requires FileShape(file) && MarkedLines(file) && file.IsDeleted() && !file.IsAdded()
    requires ApplyFile(file, Some(data)) == Deleted
    ensures ApplyFile(Swap(file), None) == Content(data)
       <==> DecodeSource(data).value.newline == Lf && forall hunk :: hunk in file.hunks ==> NewEnd(hunk) <= 0
  {
    hide ApplyHunks, EncodeSource, DecodeSource, SwapHunks, SwapLines, FileShape, MarkedLines, NewEnd, Faithful;
    DeletionLeaves(file, data);
    var source := DecodeSource(data).value;
    var output := ApplyHunks(source.lines, file.hunks, 0, 0).value;
    HunksReverse(source.lines, file.hunks);
    DecodeThenEncode(data);
    DecodedFaithful(data);
    if output == [] {
      UndoDeletion(file, source);
      StyleMatters(data, Lf);
    } else {
      UndoTrailingDeletion(file, source);
    }
  }

  // ---------------------------------------------------------------- what cannot be undone

  const INSERTED := DiffLine(Added, "b", None, Some(2))

  /** `@@ -1,0 +2 @@` with one added line. */
  const INSERT_AFTER_FIRST :=
    FileDiff("f", Some("f"), Some("f"), [INSERTED], [Hunk(1, 0, 2, 1, [INSERTED])], false, false, None, None)

  /** Inserting after an unterminated line is accepted, and cannot be undone. */
  lemma InsertAfterUnterminatedLine()
    ensures FileShape(INSERT_AFTER_FIRST) && MarkedLines(INSERT_AFTER_FIRST)
    ensures ApplyFile(INSERT_AFTER_FIRST, Some([97])) == Content([97, 10, 98])
    ensures ApplyFile(Swap(INSERT_AFTER_FIRST), Some([97, 10, 98])) == Conflict
  {
    hide EncodeSource, DecodeSource, ApplyHunks, FileShape, SwapHunks, SwapLines, Faithful;
    var file := INSERT_AFTER_FIRST;
    InsertShape();
    InsertBytes();
    InsertLoop();
    EncodeThenDecode(["a"], Lf, false);
    assert file.lines[0].newLine == Some(2);
    UndoLines(file, Source(["a"], Lf, false), ["a", "b"]);
  }

  lemma InsertBytes()
    ensures Faithful(["a"], false) && Faithful(["a", "b"], false)
    ensures EncodeSource(["a"], Lf, false) == [97] && EncodeSource(["a", "b"], Lf, false) == [97, 10, 98]
  {
    assert "a"[1..] == "" && "b"[1..] == "";
    assert Encode("a") == [97] + Encode("") && Encode("b") == [98] + Encode("");
    assert ["a"][1..] == [] && ["a", "b"][1..] == ["b"] && ["b"][1..] == [];
    assert EncodeLines(["b"]) == [Encode("b")] + EncodeLines([]);
    assert EncodeLines(["a"]) == [Encode("a")] + EncodeLines([]);
    assert EncodeLines(["a", "b"]) == [Encode("a")] + EncodeLines(["b"]);
    assert [[97], [98]][1..] == [[98]];
  }

  lemma InsertLoop()
    ensures ApplyHunks(["a"], INSERT_AFTER_FIRST.hunks, 0, 0) == Some(["a", "b"])
  {
    var hunks := INSERT_AFTER_FIRST.hunks;
    assert OldSide(hunks[0].lines) == [] && NewSide(hunks[0].lines) == ["b"];
    LoopStep(["a"], hunks, 0, 0);
    assert hunks[1..] == [];
    LoopEnd(["a"], 1, 2);
    assert ["a"][0..1] + ["b"] + [] == ["a", "b"];
  }

  lemma InsertShape()
    ensures FileShape(INSERT_AFTER_FIRST)
  {
    var hunks := INSERT_AFTER_FIRST.hunks;
    OneLineLength(INSERTED);
    assert [INSERTED][..0] == [];
    assert SideLength([], Added) == 0 && SideLength([], Removed) == 0;
    assert NumberedAfter(INSERTED, [], 1, 2);
    assert HunkShape(hunks[0]);
    assert hunks[..0] == [];
    assert HunkLines(hunks) == HunkLines([]) + [INSERTED];
  }

  const CREATED := [DiffLine(Added, "a", None, Some(1)), DiffLine(Added, "", None, Some(2))]

  /** `@@ -0,0 +1,2 @@` with two added lines, the second one empty and marked. */
  const CREATE_FLAGGED :=
    FileDiff("f", None, Some("f"), CREATED, [Hunk(0, 0, 1, 2, CREATED)], false, true, None, Some(2))

  /** Creating a file whose marked last line is empty is accepted, and cannot be undone. */
  lemma CreateFlaggedEmptyLine()
    ensures FileShape(CREATE_FLAGGED) && MarkedLines(CREATE_FLAGGED)
    ensures ApplyFile(CREATE_FLAGGED, None) == Content([97, 10])
    ensures ApplyFile(Swap(CREATE_FLAGGED), Some([97, 10])) == Conflict
  {
    hide EncodeSource, DecodeSource, ApplyHunks, SwapHunks, SwapLines, FileShape, MarkedLines;
    CreateShape();
    CreateLoop();
    InsertBytes();
    assert ["a"] + [""] == ["a", ""];
    TrailingReadBack(["a"], Lf);
    TerminatedBytes();
    FlaggedNotFinal(CREATE_FLAGGED, [97, 10]);
  }

  lemma TerminatedBytes()
    ensures EncodeSource(["a"], Lf, true) == [97, 10]
  {
    hide Encode;
    InsertBytes();
  }

  lemma AddedSides(line: DiffLine)
    requires line.kind == Added
    ensures OldSide([line]) == [] && NewSide([line]) == [line.content]
  {
    assert [line][..0] == [];
    assert NewSide([line]) == NewSide([line][..0]) + [line.content];
  }

  lemma CreatedSides()
    ensures OldSide(CREATED) == [] && NewSide(CREATED) == ["a", ""]
    ensures SideLength(CREATED[..1], Added) == 0 && SideLength(CREATED[..1], Removed) == 1
  {
    assert CREATED[..1] == [CREATED[0]];
    AddedSides(CREATED[0]);
    OneLineLength(CREATED[0]);
    assert OldSide(CREATED) == OldSide(CREATED[..1]) + [];
    assert NewSide(CREATED) == NewSide(CREATED[..1]) + [""];
  }

  lemma CreateLoop()
    ensures ApplyHunks([], CREATE_FLAGGED.hunks, 0, 0) == Some(["a", ""])
  {
    hide OldSide, NewSide;
    var hunks := CREATE_FLAGGED.hunks;
    var none: seq<string> := [];
    CreatedSides();
    LoopStep(none, hunks, 0, 0);
    assert hunks[1..] == [] && none[0..0] == [] && none[0..] == [];
    LoopEnd(none, 0, 2);
    assert none[0..0] + ["a", ""] + none[0..] == ["a", ""];
  }

  lemma CreateShape()
    ensures FileShape(CREATE_FLAGGED) && MarkedLines(CREATE_FLAGGED)
  {
    hide SideLength, OldSide, NewSide;
    var hunks := CREATE_FLAGGED.hunks;
    CreatedSides();
    SideLengths(CREATED);
    SideLengths([]);
    assert CREATED[..0] == [];
    NothingOnSides();
    forall i | 0 <= i < 2 ensures NumberedAfter(CREATED[i], CREATED[..i], 0, 1) {
      assert i == 0 || i == 1;
    }
    assert HunkShape(hunks[0]);
    assert hunks[..0] == [];
    assert HunkLines(hunks) == HunkLines([]) + CREATED;
    assert CREATED[1] in CREATED;
  }

  lemma NothingOnSides()
    ensures SideLength([], Added) == 0 && SideLength([], Removed) == 0
  {
  }

  lemma OneLineLength(line: DiffLine)
    ensures SideLength([line], Added) == (if line.kind != Added then 1 else 0)
    ensures SideLength([line], Removed) == (if line.kind != Removed then 1 else 0)
  {
    assert [line][..0] == [];
  }
}
