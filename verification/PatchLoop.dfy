/** The applier as it is written: an output list and two cursors (app/agent/static_checks.py:872-930). */
module PatchLoop {
  import opened Wrappers
  import opened Utf8
  import opened UnifiedDiff
  import opened DiffShape
  import opened SourceText
  import opened PatchApply

  /** One hunk: check its context and removed lines against the source, append its context and added lines. */
  method ApplyHunk(source: seq<string>, hunk: Hunk, at: nat,
      before: seq<string>) returns (output: Option<seq<string>>, cursor: nat)
    requires at <= |source|
    ensures output.Some? <==> OldSide(hunk.lines) <= source[at..]
    ensures output.Some? ==> output.value == before + NewSide(hunk.lines) && cursor == at + |OldSide(hunk.lines)| <= |source|
  {
    hide OldSide, NewSide;
    NoSides();
    var lines := before;
    cursor := at;
    var i := 0;
    while i < |hunk.lines|
      invariant 0 <= i <= |hunk.lines|
      invariant lines == before + NewSide(hunk.lines[..i])
      invariant cursor == at + |OldSide(hunk.lines[..i])| <= |source|
      invariant source[at..cursor] == OldSide(hunk.lines[..i])
    {
      var line := hunk.lines[i];
      OneMoreLine(hunk.lines, i);
      if line.OnOldSide() {
        OldSidePrefix(hunk.lines, i + 1);
        if cursor >= |source| || source[cursor] != line.content {
          return None, cursor;
        }
        cursor := cursor + 1;
      }
      if line.OnNewSide() {
        lines := lines + [line.content];
      }
      i := i + 1;
    }
    assert hunk.lines[..i] == hunk.lines;
    output := Some(lines);
  }

  lemma NoSides()
    ensures OldSide([]) == [] && NewSide([]) == []
  {
  }

  lemma OneMoreLine(lines: seq<DiffLine>, i: nat)
    requires i < |lines|
    ensures OldSide(lines[..i + 1]) == OldSide(lines[..i]) + if lines[i].OnOldSide() then [lines[i].content] else []
    ensures NewSide(lines[..i + 1]) == NewSide(lines[..i]) + if lines[i].OnNewSide() then [lines[i].content] else []
  {
    assert lines[..i + 1][..i] == lines[..i];
  }

  lemma {:induction false} OldSidePrefix(lines: seq<DiffLine>, i: nat)
    requires i <= |lines|
    ensures OldSide(lines[..i]) <= OldSide(lines)
    decreases |lines|
  {
    if i < |lines| {
      OldSidePrefix(lines[..|lines| - 1], i);
      assert lines[..|lines| - 1][..i] == lines[..i];
    } else {
      assert lines[..i] == lines;
    }
  }

  /** The loop over the hunks. */
  method RunHunks(source: seq<string>, hunks: seq<Hunk>) returns (r: Option<seq<string>>)
    ensures r == ApplyHunks(source, hunks, 0, 0)
    ensures r.Some? <==> exists gaps :: Splits(source, hunks, gaps)
    ensures forall gaps :: Splits(source, hunks, gaps) ==> r == Some(Weave(gaps, NewSides(hunks)))
  {
    hide Splits, Weave, NewSides, ApplyHunks, OldSide, NewSide, OldIndex, NewIndex;
    HunksExact(source, hunks);
    var output: seq<string> := [];
    var sourceCursor: nat := 0;
    var i := 0;
    assert hunks[0..] == hunks;
    PrependNothing(ApplyHunks(source, hunks, 0, 0));
    while i < |hunks|
      invariant 0 <= i <= |hunks| && sourceCursor <= |source|
      invariant ApplyHunks(source, hunks, 0, 0) == Prepend(output, ApplyHunks(source, hunks[i..], sourceCursor, |output|))
    {
      var hunk := hunks[i];
      assert hunks[i..][0] == hunk && hunks[i..][1..] == hunks[i + 1..];
      var oldIndex, newIndex := OldIndex(hunk), NewIndex(hunk);
      if oldIndex < sourceCursor || oldIndex > |source| {
        LoopStops(source, hunks[i..], sourceCursor, |output|);
        return None;
      }
      ghost var before := output;
      output := output + source[sourceCursor..oldIndex];
      if |output| != newIndex {
        LoopStops(source, hunks[i..], sourceCursor, |before|);
        return None;
      }
      var applied, cursor := ApplyHunk(source, hunk, oldIndex, output);
      if applied.None? {
        LoopStops(source, hunks[i..], sourceCursor, |before|);
        return None;
      }
      LoopStep(source, hunks[i..], sourceCursor, |before|);
      PrependStep(before, source[sourceCursor..oldIndex], NewSide(hunk.lines),
                  ApplyHunks(source, hunks[i..], sourceCursor, |before|),
                  ApplyHunks(source, hunks[i + 1..], cursor, |applied.value|));
      output := applied.value;
      sourceCursor := cursor;
      i := i + 1;
    }
    assert hunks[i..] == [];
    LoopEnd(source, sourceCursor, |output|);
    output := output + source[sourceCursor..];
    r := Some(output);
  }

  function Prepend(front: seq<string>, rest: Option<seq<string>>): Option<seq<string>> {
    match rest case None => None case Some(lines) => Some(front + lines)
  }

  lemma PrependNothing(rest: Option<seq<string>>)
    ensures Prepend([], rest) == rest
  {
    if rest.Some? {
      assert [] + rest.value == rest.value;
    }
  }

  lemma PrependStep(before: seq<string>, gap: seq<string>, added: seq<string>, whole: Option<seq<string>>,
      rest: Option<seq<string>>)
    requires rest.None? ==> whole.None?
    requires rest.Some? ==> whole == Some(gap + added + rest.value)
    ensures Prepend(before, whole) == Prepend(before + gap + added, rest)
  {
    if rest.Some? {
      Associate(before, gap, added, rest.value);
    }
  }

  lemma Associate(a: seq<string>, b: seq<string>, c: seq<string>, d: seq<string>)
    ensures a + (b + c + d) == a + b + c + d
  {
  }

  method ApplyFilePatch(file: FileDiff, source: Option<seq<byte>>) returns (r: Applied)
    ensures r == ApplyFile(file, source)
    ensures !r.Conflict? <==> exists gaps :: AcceptedWith(file, source, gaps)
    ensures forall gaps :: AcceptedWith(file, source, gaps) ==>
              r == if file.newPath.None? then Deleted else Content(BytesWith(file, source, gaps))
  {
    hide ApplyHunks, Splits, EncodeSource, DecodeSource, AcceptedWith, BytesWith;
    ApplyExact(file, source);
    var lines: seq<string> := [];
    var newline := Lf;
    var finalNewline := !file.newNoNewline;
    if file.IsAdded() {
      if source.Some? {
        return Conflict;
      }
    } else {
      if source.None? {
        return Conflict;
      }
      var decoded := DecodeSource(source.value);
      if decoded.None? {
        return Conflict;
      }
      lines, newline, finalNewline := decoded.value.lines, decoded.value.newline, decoded.value.finalNewline;
      var oldTouchesEof := exists line :: line in file.lines && line.oldLine == Some(|lines|);
      if file.oldNoNewline && finalNewline {
        return Conflict;
      }
      if file.oldNoNewline && file.oldNoNewlineLine != Some(|lines|) {
        return Conflict;
      }
      if oldTouchesEof && !finalNewline && !file.oldNoNewline {
        return Conflict;
      }
      if file.newNoNewline && finalNewline {
        return Conflict;
      }
    }
    var output := RunHunks(lines, file.hunks);
    if output.None? {
      return Conflict;
    }
    if file.newNoNewline {
      if file.newNoNewlineLine != Some(|output.value|) {
        return Conflict;
      }
      finalNewline := false;
    } else if file.oldNoNewline && !file.IsDeleted() {
      return Conflict;
    }
    var encoded := EncodeSource(output.value, newline, finalNewline);
    if file.IsDeleted() {
      return if encoded != [] then Conflict else Deleted;
    }
    r := Content(encoded);
  }
}
