/**
 The grammar of unified diffs is unambiguous: lines have at most one derivation
 (app/agent/patches.py:250-357).
 */
module DiffUnambiguous {
  import opened Wrappers
  import opened UnifiedDiff
  import opened DiffGrammar

  /** Where a body ends is settled by its counts. */
  lemma {:induction false} BodyUnique(a: seq<string>, b: seq<string>, oldCount: nat, newCount: nat,
      x: seq<string>, y: seq<string>)
    requires BodyOf(a, oldCount, newCount) && BodyOf(b, oldCount, newCount) && a + x == b + y
    ensures a == b && x == y
    decreases |a|
  {
    hide BodyOf, IsBodyLine, BodyKind;
    if a == [] || b == [] {
      EmptyBody(a, oldCount, newCount);
      EmptyBody(b, oldCount, newCount);
      assert [] + x == x && [] + y == y;
    } else {
      assert (a + x)[0] == a[0] && (b + y)[0] == b[0];
      assert (a + x)[1..] == a[1..] + x && (b + y)[1..] == b[1..] + y;
      BodyTail(a, oldCount, newCount);
      BodyTail(b, oldCount, newCount);
      if a[0] == MARKER {
        BodyUnique(a[1..], b[1..], oldCount, newCount, x, y);
      } else {
        var o, n := if BodyKind(a[0]) == Added then 0 else 1, if BodyKind(a[0]) == Removed then 0 else 1;
        BodyUnique(a[1..], b[1..], oldCount - o, newCount - n, x, y);
      }
      assert a == [a[0]] + a[1..] && b == [b[0]] + b[1..];
    }
  }

  lemma EmptyBody(body: seq<string>, oldCount: nat, newCount: nat)
    requires BodyOf(body, oldCount, newCount)
    ensures body == [] <==> oldCount + newCount == 0
  {
    if body != [] {
      BodyTail(body, oldCount, newCount);
    }
  }

  predicate NoMarkerFirst(text: seq<string>) {
    text != [] ==> text[0] != MARKER
  }

  lemma HunkUnique(a: HunkTree, b: HunkTree, x: seq<string>, y: seq<string>)
    requires HunkDerives(a) && HunkDerives(b) && NoMarkerFirst(x) && NoMarkerFirst(y)
    requires HunkText(a) + x == HunkText(b) + y
    ensures a == b && x == y
  {
    hide OpenHunk, BodyOf;
    var s, t := AfterBody(a, x), AfterBody(b, y);
    HunkTextCut(a, x);
    HunkTextCut(b, y);
    BodyUnique(a.body, b.body, OpenHunk(a.header).value.oldCount, OpenHunk(a.header).value.newCount, s, t);
    TrailingUnique(a, b, x, y);
  }

  lemma TrailingUnique(a: HunkTree, b: HunkTree, x: seq<string>, y: seq<string>)
    requires NoMarkerFirst(x) && NoMarkerFirst(y) && AfterBody(a, x) == AfterBody(b, y)
    ensures a.trailing == b.trailing && x == y
  {
    AfterBodyCut(a, x);
    AfterBodyCut(b, y);
  }

  lemma AfterBodyCut(hunk: HunkTree, rest: seq<string>)
    ensures var text := AfterBody(hunk, rest);
            if hunk.trailing then text != [] && text[0] == MARKER && text[1..] == rest else text == rest
  {
  }

  function AfterBody(hunk: HunkTree, rest: seq<string>): seq<string> {
    (if hunk.trailing then [MARKER] else []) + rest
  }

  lemma HunkTextCut(hunk: HunkTree, rest: seq<string>)
    ensures var text := HunkText(hunk) + rest;
            text != [] && text[0] == hunk.header && text[1..] == hunk.body + AfterBody(hunk, rest)
  {
  }

  predicate SectionsDerive(sections: seq<Section>) {
    forall section :: section in sections ==> SectionDerives(section)
  }

  predicate FilesDerive(rules: PathRules, files: seq<FileTree>) {
    forall file :: file in files ==> FileDerives(rules, file)
  }

  /** The first line says whether a section starts there, and which kind. */
  lemma SectionStarts(section: Section, rest: seq<string>)
    requires SectionDerives(section)
    ensures var text := SectionsText([section]) + rest;
            && text != [] && !("--- " <= text[0])
            && (section.Prose? <==> !("@@" <= text[0]))
  {
    hide OpenHunk, BodyOf;
    assert SectionsText([section]) == (match section case Prose(line) => [line] case HunkSection(hunk) => HunkText(hunk)) + [] by {
      assert [section][1..] == [];
    }
    if section.HunkSection? {
      assert section.hunk.header[0] == '@';
    }
  }

  lemma FilesStart(rules: PathRules, files: seq<FileTree>)
    requires FilesDerive(rules, files)
    ensures FilesText(files) == [] <==> files == []
    ensures files != [] ==> "--- " <= FilesText(files)[0]
  {
    hide OpenFile;
    if files != [] {
      assert files[0] in files;
    }
  }

  lemma SectionsCut(sections: seq<Section>, rest: seq<string>)
    requires sections != []
    ensures SectionsText(sections) + rest == SectionsText([sections[0]]) + (SectionsText(sections[1..]) + rest)
    ensures sections[0].Prose? ==> SectionsText([sections[0]]) == [sections[0].line]
    ensures sections[0].HunkSection? ==> SectionsText([sections[0]]) == HunkText(sections[0].hunk)
  {
    hide HunkText;
    assert [sections[0]][1..] == [];
    var first := match sections[0] case Prose(line) => [line] case HunkSection(hunk) => HunkText(hunk);
    assert SectionsText([sections[0]]) == first + [];
    assert (first + SectionsText(sections[1..])) + rest == first + (SectionsText(sections[1..]) + rest);
  }

  /** Sections are told apart line by line, and from the files that follow. */
  lemma {:induction false} SectionsUnique(rules: PathRules, a: seq<Section>, b: seq<Section>, fa: seq<FileTree>,
      fb: seq<FileTree>)
    requires SectionsDerive(a) && SectionsDerive(b) && FilesDerive(rules, fa) && FilesDerive(rules, fb)
    requires SectionsText(a) + FilesText(fa) == SectionsText(b) + FilesText(fb)
    ensures a == b && FilesText(fa) == FilesText(fb)
    decreases |a|
  {
    hide SectionDerives, FileDerives, SectionsText, FilesText, HunkText;
    FilesStart(rules, fa);
    FilesStart(rules, fb);
    if a != [] {
      SectionsCut(a, FilesText(fa));
      SectionStarts(a[0], SectionsText(a[1..]) + FilesText(fa));
    }
    if b != [] {
      SectionsCut(b, FilesText(fb));
      SectionStarts(b[0], SectionsText(b[1..]) + FilesText(fb));
    }
    if a == [] || b == [] {
      NoSections();
      assert [] + FilesText(fa) == FilesText(fa) && [] + FilesText(fb) == FilesText(fb);
    } else {
      FirstSectionUnique(rules, a, b, fa, fb);
      SectionsUnique(rules, a[1..], b[1..], fa, fb);
      assert a == [a[0]] + a[1..] && b == [b[0]] + b[1..];
    }
  }

  lemma NoSections()
    ensures SectionsText([]) == []
  {
  }

  lemma FirstSectionUnique(rules: PathRules, a: seq<Section>, b: seq<Section>, fa: seq<FileTree>, fb: seq<FileTree>)
    requires SectionsDerive(a) && SectionsDerive(b) && FilesDerive(rules, fa) && FilesDerive(rules, fb)
    requires SectionsText(a) + FilesText(fa) == SectionsText(b) + FilesText(fb) && a != [] && b != []
    requires a[0].Prose? <==> b[0].Prose?
    ensures a[0] == b[0] && SectionsText(a[1..]) + FilesText(fa) == SectionsText(b[1..]) + FilesText(fb)
  {
    hide HunkDerives, FileDerives, SectionsText, FilesText, HunkText, IsProse;
    var x, y := SectionsText(a[1..]) + FilesText(fa), SectionsText(b[1..]) + FilesText(fb);
    SectionsCut(a, FilesText(fa));
    SectionsCut(b, FilesText(fb));
    if a[0].Prose? {
      assert ([a[0].line] + x)[0] == a[0].line && ([b[0].line] + y)[0] == b[0].line;
      assert ([a[0].line] + x)[1..] == x && ([b[0].line] + y)[1..] == y;
    } else {
      TextStarts(rules, a[1..], fa);
      TextStarts(rules, b[1..], fb);
      assert SectionDerives(a[0]) && SectionDerives(b[0]);
      HunkUnique(a[0].hunk, b[0].hunk, x, y);
    }
  }

  lemma {:induction false} FilesUnique(rules: PathRules, a: seq<FileTree>, b: seq<FileTree>)
    requires FilesDerive(rules, a) && FilesDerive(rules, b) && FilesText(a) == FilesText(b)
    ensures a == b
    decreases |a|
  {
    hide FileDerives, SectionDerives, FilesText;
    FilesStart(rules, a);
    FilesStart(rules, b);
    if a != [] {
      FileCut(rules, a);
      FileCut(rules, b);
      SectionsUnique(rules, a[0].sections, b[0].sections, a[1..], b[1..]);
      FilesUnique(rules, a[1..], b[1..]);
      assert a == [a[0]] + a[1..] && b == [b[0]] + b[1..];
    }
  }

  lemma FileCut(rules: PathRules, files: seq<FileTree>)
    requires FilesDerive(rules, files) && files != []
    ensures |FilesText(files)| >= 2 && FilesText(files)[0] == files[0].oldHeader && FilesText(files)[1] == files[0].newHeader
    ensures FilesText(files)[2..] == SectionsText(files[0].sections) + FilesText(files[1..])
    ensures SectionsDerive(files[0].sections) && FilesDerive(rules, files[1..])
  {
    hide SectionDerives, FilesText;
    FileTextCut(files);
    FilesDeriveFirst(rules, files);
  }

  lemma FileTextCut(files: seq<FileTree>)
    requires files != []
    ensures |FilesText(files)| >= 2 && FilesText(files)[0] == files[0].oldHeader && FilesText(files)[1] == files[0].newHeader
    ensures FilesText(files)[2..] == SectionsText(files[0].sections) + FilesText(files[1..])
  {
    hide SectionsText;
    var head, sections, rest := [files[0].oldHeader, files[0].newHeader], SectionsText(files[0].sections), FilesText(files[1..]);
    assert FilesText(files) == head + (sections + rest);
    assert (head + (sections + rest))[2..] == sections + rest;
  }

  lemma FilesDeriveFirst(rules: PathRules, files: seq<FileTree>)
    requires FilesDerive(rules, files) && files != []
    ensures SectionsDerive(files[0].sections) && FilesDerive(rules, files[1..])
  {
    hide OpenFile, SectionDerives;
    assert files[0] in files;
    assert forall file :: file in files[1..] ==> file in files;
  }

  lemma PreambleStarts(preamble: seq<string>, rest: seq<string>)
    requires forall line :: line in preamble ==> IsProse(line)
    ensures preamble != [] ==> var text := preamble + rest; text[0] == preamble[0] && !("--- " <= text[0])
  {
    if preamble != [] {
      assert preamble[0] in preamble;
    }
  }

  lemma {:induction false} PreambleUnique(rules: PathRules, a: seq<string>, b: seq<string>, fa: seq<FileTree>,
      fb: seq<FileTree>)
    requires (forall line :: line in a + b ==> IsProse(line)) && FilesDerive(rules, fa) && FilesDerive(rules, fb)
    requires a + FilesText(fa) == b + FilesText(fb)
    ensures a == b && FilesText(fa) == FilesText(fb)
    decreases |a|
  {
    hide FileDerives, FilesText;
    FilesStart(rules, fa);
    FilesStart(rules, fb);
    assert forall line :: line in a || line in b ==> line in a + b;
    PreambleStarts(a, FilesText(fa));
    PreambleStarts(b, FilesText(fb));
    if a == [] || b == [] {
      assert [] + FilesText(fa) == FilesText(fa) && [] + FilesText(fb) == FilesText(fb);
    } else {
      assert (a + FilesText(fa))[1..] == a[1..] + FilesText(fa) && (b + FilesText(fb))[1..] == b[1..] + FilesText(fb);
      assert forall line :: line in a[1..] + b[1..] ==> line in a || line in b;
      PreambleUnique(rules, a[1..], b[1..], fa, fb);
      assert a == [a[0]] + a[1..] && b == [b[0]] + b[1..];
    }
  }

  /** Two derivations of the same lines are the same tree. */
  lemma DerivationUnique(rules: PathRules, a: DiffTree, b: DiffTree)
    requires Derives(rules, a) && Derives(rules, b) && TreeText(a) == TreeText(b)
    ensures a == b
  {
    hide FileDerives, FilesText, IsProse;
    assert forall line :: line in a.preamble + b.preamble ==> line in a.preamble || line in b.preamble;
    PreambleUnique(rules, a.preamble, b.preamble, a.files, b.files);
    FilesUnique(rules, a.files, b.files);
  }
}
