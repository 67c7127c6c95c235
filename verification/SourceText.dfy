/**
 Source files as lines, a newline style and a final-newline flag
 (app/agent/static_checks.py:852-869, 923-925).
 */
module SourceText {
  import opened Wrappers
  import opened TextLines
  import opened Utf8

  datatype Newline = Lf | CrLf {
    function Text(): string {
      if this == Lf then "\n" else "\r\n"
    }

    function Bytes(): seq<byte> {
      if this == Lf then [10] else [13, 10]
    }
  }

  datatype Source = Source(lines: seq<string>, newline: Newline, finalNewline: bool)

  /** `text.replace("\r\n", "")`. */
  function WithoutCrLf(s: string): string {
    if s == "" then "" else if "\r\n" <= s then WithoutCrLf(s[2..]) else [s[0]] + WithoutCrLf(s[1..])
  }

  predicate HasCrLf(s: string) {
    exists i :: 0 <= i < |s| - 1 && s[i] == '\r' && s[i + 1] == '\n'
  }

  /** `_decode_source`, None where it raises. */
  function DecodeSource(data: seq<byte>): Option<Source> {
    match Decode(data)
    case Err(_) => None
    case Ok(text) =>
      var without := WithoutCrLf(text);
      if '\r' in without then None
      else if HasCrLf(text) && '\n' in without then None
      else
        var normalized := ReplaceCrLf(text);
        var finalNewline := normalized != "" && normalized[|normalized| - 1] == '\n';
        var lines := Split(normalized);
        Some(Source(if finalNewline then lines[..|lines| - 1] else lines,
                    if HasCrLf(text) then CrLf else Lf, finalNewline))
  }

  function EncodeLines(lines: seq<string>): seq<seq<byte>> {
    if lines == [] then [] else [Encode(lines[0])] + EncodeLines(lines[1..])
  }

  /** The bytes written for some output lines. */
  function EncodeSource(lines: seq<string>, newline: Newline, finalNewline: bool): seq<byte> {
    Join(EncodeLines(lines), newline.Bytes()) + (if lines != [] && finalNewline then newline.Bytes() else [])
  }

  // ---------------------------------------------------------------- what is refused

  /** A carriage return that no line feed follows. */
  predicate LoneCr(s: string) {
    exists i :: 0 <= i < |s| && s[i] == '\r' && (i + 1 == |s| || s[i + 1] != '\n')
  }

  /** A line feed that no carriage return precedes. */
  predicate BareLf(s: string) {
    exists i :: 0 <= i < |s| && s[i] == '\n' && (i == 0 || s[i - 1] != '\r')
  }

  lemma {:induction false} WithoutCrLfKeeps(s: string)
    ensures '\r' in WithoutCrLf(s) <==> LoneCr(s)
    ensures '\n' in WithoutCrLf(s) <==> BareLf(s)
    decreases |s|
  {
    if s != "" {
      if "\r\n" <= s {
        assert s[0] == '\r' && s[1] == '\n';
        WithoutCrLfKeeps(s[2..]);
        DropFront(s, 2);
      } else {
        WithoutCrLfKeeps(s[1..]);
        DropFront(s, 1);
      }
    }
  }

  /** Dropping a front that does not split a pair keeps lone and bare characters but its own. */
  lemma DropFront(s: string, n: nat)
    requires n == 2 ==> "\r\n" <= s
    requires n == 1 ==> s != "" && !("\r\n" <= s)
    requires n == 1 || n == 2
    ensures LoneCr(s) <==> LoneCr(s[n..]) || (n == 1 && s[0] == '\r')
    ensures BareLf(s) <==> BareLf(s[n..]) || (n == 1 && s[0] == '\n')
  {
    var t := s[n..];
    assert forall i :: 0 <= i < |t| ==> t[i] == s[i + n];
    assert n == 2 ==> s[0] == '\r' && s[1] == '\n';
    if LoneCr(t) {
      var i :| 0 <= i < |t| && t[i] == '\r' && (i + 1 == |t| || t[i + 1] != '\n');
      assert s[i + n] == '\r' && (i + n + 1 == |s| || s[i + n + 1] != '\n');
    }
    if BareLf(t) {
      var i :| 0 <= i < |t| && t[i] == '\n' && (i == 0 || t[i - 1] != '\r');
      assert s[i + n] == '\n';
      if i == 0 {
        assert s[n - 1] != '\r';
      } else {
        assert s[i + n - 1] == t[i - 1];
      }
    }
    if i :| n <= i < |s| && s[i] == '\r' && (i + 1 == |s| || s[i + 1] != '\n') {
      assert t[i - n] == '\r';
      assert i + 1 < |s| ==> t[i - n + 1] == s[i + 1];
    }
    if i :| n <= i < |s| && s[i] == '\n' && (i == 0 || s[i - 1] != '\r') {
      assert t[i - n] == '\n';
      assert i > n ==> t[i - n - 1] == s[i - 1];
    }
  }

  /** Decoding accepts exactly valid UTF-8 with no lone CR and not both newline styles. */
  lemma DecodeSourceAccepts(data: seq<byte>)
    ensures DecodeSource(data).Some? <==>
            Decode(data).Ok? && !LoneCr(Decode(data).value) && !(HasCrLf(Decode(data).value) && BareLf(Decode(data).value))
  {
    hide Decode;
    if Decode(data).Ok? {
      WithoutCrLfKeeps(Decode(data).value);
    }
  }

  // ---------------------------------------------------------------- decoding, then encoding

  /** Text in one newline style: every CR is followed by LF, and LFs all agree. */
  predicate Uniform(s: string, newline: Newline) {
    && !LoneCr(s)
    && (newline == CrLf ==> !BareLf(s))
    && (newline == Lf ==> !HasCrLf(s))
  }

  lemma {:induction false} UniformTail(s: string, newline: Newline)
    requires s != "" && Uniform(s, newline)
    ensures s[0] == '\r' ==> newline == CrLf && "\r\n" <= s && Uniform(s[2..], newline)
    ensures s[0] != '\r' ==> Uniform(s[1..], newline) && (s[0] == '\n' ==> newline == Lf)
  {
    hide BareLf;
    if s[0] == '\r' {
      assert "\r\n" <= s;
      assert s[0] == '\r' && s[0 + 1] == '\n';
      DropFront(s, 2);
    } else {
      DropFront(s, 1);
      if HasCrLf(s[1..]) {
        var i :| 0 <= i < |s[1..]| - 1 && s[1..][i] == '\r' && s[1..][i + 1] == '\n';
        assert s[i + 1] == '\r' && s[i + 1 + 1] == '\n';
      }
    }
  }

  lemma JoinPrepend(c: char, rest: seq<string>, separator: string)
    requires rest != []
    ensures Join([""] + rest, separator) == separator + Join(rest, separator)
    ensures Join([[c] + rest[0]] + rest[1..], separator) == [c] + Join(rest, separator)
  {
    assert ([""] + rest)[1..] == rest;
    var all := [[c] + rest[0]] + rest[1..];
    assert all[1..] == rest[1..];
  }

  lemma SplitPrepend(c: char, s: string)
    ensures Split([c] + s) == if c == '\n' then [""] + Split(s) else [[c] + Split(s)[0]] + Split(s)[1..]
  {
    assert ([c] + s)[1..] == s;
  }

  lemma ReplacePrepend(s: string)
    requires s != ""
    ensures "\r\n" <= s ==> ReplaceCrLf(s) == "\n" + ReplaceCrLf(s[2..]) && s == "\r\n" + s[2..]
    ensures !("\r\n" <= s) ==> ReplaceCrLf(s) == [s[0]] + ReplaceCrLf(s[1..]) && s == [s[0]] + s[1..]
  {
  }

  /** Splitting the normalised text and joining with the style gives the text back. */
  lemma {:induction false} JoinNormalized(s: string, newline: Newline)
    requires Uniform(s, newline)
    ensures Join(Split(ReplaceCrLf(s)), newline.Text()) == s
    decreases |s|
  {
    hide Uniform, Join, Split, ReplaceCrLf;
    if s == "" {
      EmptyJoin(newline.Text());
    } else {
      UniformTail(s, newline);
      ReplacePrepend(s);
      var n := if "\r\n" <= s then 2 else 1;
      var rest := ReplaceCrLf(s[n..]);
      JoinNormalized(s[n..], newline);
      SplitPrepend(if n == 2 then '\n' else s[0], rest);
      JoinPrepend(s[0], Split(rest), newline.Text());
    }
  }

  lemma EmptyJoin(separator: string)
    ensures Join(Split(ReplaceCrLf("")), separator) == ""
  {
  }

  lemma NewlineBytes(newline: Newline)
    ensures Encode(newline.Text()) == newline.Bytes()
  {
    assert "\n"[1..] == "" && "\r\n"[1..] == "\n";
    assert EncodeChar('\n') == [10] && EncodeChar('\r') == [13];
    assert Encode("\n") == [10] + Encode("");
    assert Encode("\r\n") == [13] + Encode("\n");
  }

  lemma {:induction false} EncodeJoin(lines: seq<string>, newline: Newline)
    ensures Encode(Join(lines, newline.Text())) == Join(EncodeLines(lines), newline.Bytes())
    ensures |EncodeLines(lines)| == |lines|
  {
    hide EncodeChar;
    if |lines| > 1 {
      EncodeJoin(lines[1..], newline);
      NewlineBytes(newline);
      var rest := Join(lines[1..], newline.Text());
      EncodeAppend(lines[0] + newline.Text(), rest);
      EncodeAppend(lines[0], newline.Text());
    } else if |lines| == 1 {
      assert EncodeLines(lines[1..]) == [];
    }
  }

  /** Dropping a last empty line and adding a newline instead is the same text. */
  lemma {:induction false} JoinLastEmpty<T>(lines: seq<seq<T>>, separator: seq<T>)
    requires lines != []
    ensures Join(lines + [[]], separator) == Join(lines, separator) + separator
  {
    var all := lines + [[]];
    if |lines| == 1 {
      assert all[1..] == [[]];
    } else {
      JoinLastEmpty(lines[1..], separator);
      assert all[1..] == lines[1..] + [[]];
    }
  }

  lemma {:induction false} SplitEndsEmpty(s: string)
    ensures s != "" && s[|s| - 1] == '\n' <==> |Split(s)| > 1 && Split(s)[|Split(s)| - 1] == ""
    ensures s == "" <==> Split(s) == [""]
  {
    if s != "" {
      SplitEndsEmpty(s[1..]);
    }
  }

  /** The bytes of the text of some lines. */
  lemma EncodeSourceText(lines: seq<string>, newline: Newline, finalNewline: bool)
    requires lines != []
    ensures EncodeSource(lines, newline, finalNewline) ==
            Encode(Join(if finalNewline then lines + [""] else lines, newline.Text()))
  {
    EncodeJoin(lines, newline);
    if finalNewline {
      JoinLastEmpty(lines, newline.Text());
      EncodeAppend(Join(lines, newline.Text()), newline.Text());
      NewlineBytes(newline);
    }
  }

  /** Decoding accepted bytes and encoding the lines again is the identity. */
  lemma DecodeThenEncode(data: seq<byte>)
    requires DecodeSource(data).Some?
    ensures var source := DecodeSource(data).value;
            && EncodeSource(source.lines, source.newline, source.finalNewline) == data
            && source.lines != []
            && (forall line :: line in source.lines ==> '\n' !in line && '\r' !in line)
  {
    hide Decode, Encode, Join;
    var text := Decode(data).value;
    var source := DecodeSource(data).value;
    DecodeSourceAccepts(data);
    JoinNormalized(text, source.newline);
    var normalized := ReplaceCrLf(text);
    var lines := Split(normalized);
    SplitEndsEmpty(normalized);
    if source.finalNewline {
      assert lines[..|lines| - 1] + [""] == lines;
    }
    EncodeSourceText(source.lines, source.newline, source.finalNewline);
    EncodeDecode(data);
    NormalizedNoCr(text);
  }

  lemma {:induction false} NormalizedNoCr(s: string)
    requires !LoneCr(s)
    ensures '\r' !in ReplaceCrLf(s)
    decreases |s|
  {
    if s != "" {
      if "\r\n" <= s {
        DropFront(s, 2);
        NormalizedNoCr(s[2..]);
      } else {
        DropFront(s, 1);
        NormalizedNoCr(s[1..]);
      }
    }
  }

  // ---------------------------------------------------------------- encoding, then decoding

  predicate PlainLine(line: string) {
    '\n' !in line && '\r' !in line
  }

  predicate PlainLines(lines: seq<string>) {
    forall line :: line in lines ==> PlainLine(line)
  }

  lemma {:induction false} PrependPlain(line: string, s: string)
    requires PlainLine(line)
    ensures LoneCr(line + s) <==> LoneCr(s)
    ensures BareLf(line + s) <==> BareLf(s)
    ensures HasCrLf(line + s) <==> HasCrLf(s)
    ensures ReplaceCrLf(line + s) == line + ReplaceCrLf(s)
    decreases |line|
  {
    hide LoneCr, BareLf, HasCrLf, ReplaceCrLf;
    if line == "" {
      assert line + s == s;
    } else {
      var t := line + s;
      assert line[0] in line && t[0] == line[0] && t[1..] == line[1..] + s;
      assert PlainLine(line[1..]);
      PrependPlain(line[1..], s);
      DropFront(t, 1);
      CrLfFront(t);
      ReplacePrepend(t);
      assert [line[0]] + line[1..] == line;
    }
  }

  lemma CrLfFront(s: string)
    requires s != ""
    ensures HasCrLf(s) <==> "\r\n" <= s || HasCrLf(s[1..])
  {
    if i :| 0 < i < |s| - 1 && s[i] == '\r' && s[i + 1] == '\n' {
      assert s[1..][i - 1] == '\r' && s[1..][i] == '\n';
    }
    if i :| 0 <= i < |s| - 2 && s[1..][i] == '\r' && s[1..][i + 1] == '\n' {
      assert s[i + 1] == '\r' && s[i + 2] == '\n';
    }
    if "\r\n" <= s {
      assert s[0] == '\r' && s[0 + 1] == '\n';
    }
  }

  lemma PrependNewline(newline: Newline, s: string)
    ensures var t := newline.Text() + s;
            && (LoneCr(t) <==> LoneCr(s))
            && (newline == CrLf ==> HasCrLf(t) && (BareLf(t) <==> BareLf(s)))
            && (newline == Lf ==> (HasCrLf(t) <==> HasCrLf(s)))
            && ReplaceCrLf(t) == "\n" + ReplaceCrLf(s)
  {
    hide LoneCr, BareLf, HasCrLf, ReplaceCrLf;
    var t := newline.Text() + s;
    var n := |newline.Text()|;
    assert t[n..] == s && t[0] == (if newline == Lf then '\n' else '\r');
    DropFront(t, n);
    CrLfFront(t);
    ReplacePrepend(t);
  }

  /** Text joined from plain lines is in one style. */
  lemma {:induction false} JoinedText(lines: seq<string>, newline: Newline)
    requires lines != [] && PlainLines(lines)
    ensures var text := Join(lines, newline.Text());
            && !LoneCr(text)
            && (newline == CrLf ==> !BareLf(text))
            && (HasCrLf(text) <==> newline == CrLf && |lines| > 1)
            && ReplaceCrLf(text) == Join(lines, "\n")
  {
    hide LoneCr, BareLf, HasCrLf, ReplaceCrLf;
    assert lines[0] in lines;
    if |lines| == 1 {
      NothingSpecial();
      PrependPlain(lines[0], "");
      assert lines[0] + "" == lines[0];
    } else {
      JoinedText(lines[1..], newline);
      var rest := Join(lines[1..], newline.Text());
      PrependNewline(newline, rest);
      PrependPlain(lines[0], newline.Text() + rest);
      assert lines[0] + newline.Text() + rest == lines[0] + (newline.Text() + rest);
    }
  }

  lemma NothingSpecial()
    ensures !LoneCr("") && !BareLf("") && !HasCrLf("") && ReplaceCrLf("") == ""
  {
  }

  /** Whether the bytes of these lines say where the last line ends. */
  predicate Faithful(lines: seq<string>, finalNewline: bool) {
    && lines != []
    && PlainLines(lines)
    && (finalNewline || lines == [""] || lines[|lines| - 1] != "")
  }

  /** What is decoded from text whose lines are known. */
  lemma DecodeOfText(data: seq<byte>, text: string, all: seq<string>)
    requires Decode(data) == Ok(text) && all != [] && Split(ReplaceCrLf(text)) == all
    requires !LoneCr(text) && !(HasCrLf(text) && BareLf(text))
    ensures var finalNewline := |all| > 1 && all[|all| - 1] == "";
            DecodeSource(data) ==
            Some(Source(if finalNewline then all[..|all| - 1] else all, if HasCrLf(text) then CrLf else Lf, finalNewline))
  {
    hide Decode, Split, LoneCr, BareLf, HasCrLf, ReplaceCrLf, WithoutCrLf;
    WithoutCrLfKeeps(text);
    SplitEndsEmpty(ReplaceCrLf(text));
  }

  /** Encoding lines and decoding them again gives them back; a single unterminated line has no style. */
  lemma EncodeThenDecode(lines: seq<string>, newline: Newline, finalNewline: bool)
    requires Faithful(lines, finalNewline)
    ensures DecodeSource(EncodeSource(lines, newline, finalNewline)) ==
            Some(Source(lines, if |lines| > 1 || finalNewline then newline else Lf, finalNewline))
  {
    hide Encode, Decode, Join, Split, LoneCr, BareLf, HasCrLf, ReplaceCrLf, EncodeSource, DecodeSource;
    var all := if finalNewline then lines + [""] else lines;
    assert PlainLines(all);
    EncodeSourceText(lines, newline, finalNewline);
    var text := Join(all, newline.Text());
    DecodeEncode(text);
    JoinedText(all, newline);
    SplitJoin(all);
    DecodeOfText(EncodeSource(lines, newline, finalNewline), text, all);
    if finalNewline {
      assert all[..|all| - 1] == lines;
    }
  }
}
