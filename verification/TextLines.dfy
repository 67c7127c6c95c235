/** Splitting and joining text, newline normalisation and decimal numerals. */
module TextLines {
  /** `text.replace("\r\n", "\n")`. */
  function ReplaceCrLf(s: string): (r: string)
    ensures forall c :: c in r ==> c in s
  {
    if s == "" then ""
    else if "\r\n" <= s then
      assert s[1] == '\n' && s[1] in s;
      "\n" + ReplaceCrLf(s[2..])
    else [s[0]] + ReplaceCrLf(s[1..])
  }

  /** `text.replace("\r", "\n")`. */
  function ReplaceCr(s: string): (r: string)
    ensures '\r' !in r && forall c :: c in r ==> c in s || c == '\n'
  {
    if s == "" then "" else [if s[0] == '\r' then '\n' else s[0]] + ReplaceCr(s[1..])
  }

  function NormalizeNewlines(s: string): (r: string)
    ensures '\r' !in r && forall c :: c in r ==> c in s || c == '\n'
  {
    ReplaceCr(ReplaceCrLf(s))
  }

  lemma {:induction false} ReplaceCrLfIdentity(s: string)
    requires '\r' !in s
    ensures ReplaceCrLf(s) == s
  {
    if s != "" {
      assert s[0] in s;
      ReplaceCrLfIdentity(s[1..]);
    }
  }

  lemma {:induction false} NormalizeIdentity(s: string)
    requires '\r' !in s
    ensures NormalizeNewlines(s) == s
  {
    ReplaceCrLfIdentity(s);
    ReplaceCrIdentity(s);
  }

  lemma {:induction false} ReplaceCrIdentity(s: string)
    requires '\r' !in s
    ensures ReplaceCr(s) == s
  {
    if s != "" {
      assert s[0] in s;
      ReplaceCrIdentity(s[1..]);
    }
  }

  /** `text.split("\n")`. */
  function Split(s: string): (r: seq<string>)
    ensures |r| >= 1
    ensures forall line, c :: line in r && c in line ==> c != '\n' && c in s
  {
    if s == "" then [""]
    else
      var rest := Split(s[1..]);
      if s[0] == '\n' then [""] + rest else [[s[0]] + rest[0]] + rest[1..]
  }

  /** `separator.join(lines)`. */
  function Join<T>(lines: seq<seq<T>>, separator: seq<T>): seq<T> {
    if lines == [] then []
    else if |lines| == 1 then lines[0]
    else lines[0] + separator + Join(lines[1..], separator)
  }

  lemma {:induction false} JoinSplit(s: string)
    ensures Join(Split(s), "\n") == s
  {
    if s != "" {
      var rest := Split(s[1..]);
      JoinSplit(s[1..]);
      if s[0] == '\n' {
        assert Split(s)[1..] == rest;
      } else {
        assert Split(s)[0] == [s[0]] + rest[0];
        assert Split(s)[1..] == rest[1..];
        assert s == [s[0]] + s[1..];
      }
    }
  }

  lemma {:induction false} SplitFirst(line: string, rest: string)
    requires '\n' !in line
    ensures Split(line + "\n" + rest) == [line] + Split(rest)
  {
    var s := line + "\n" + rest;
    if line == "" {
      assert s[1..] == rest;
    } else {
      assert line[0] in line;
      SplitFirst(line[1..], rest);
      assert s[1..] == line[1..] + "\n" + rest;
      assert [line[0]] + line[1..] == line;
    }
  }

  lemma {:induction false} SplitSingle(line: string)
    requires '\n' !in line
    ensures Split(line) == [line]
  {
    if line != "" {
      assert line[0] in line;
      SplitSingle(line[1..]);
      assert [line[0]] + line[1..] == line;
    }
  }

  lemma {:induction false} SplitJoin(lines: seq<string>)
    requires lines != []
    requires forall line :: line in lines ==> '\n' !in line
    ensures Split(Join(lines, "\n")) == lines
  {
    if |lines| == 1 {
      SplitSingle(lines[0]);
    } else {
      SplitJoin(lines[1..]);
      SplitFirst(lines[0], Join(lines[1..], "\n"));
    }
  }

  /** Characters of a join come from the lines or from the separator. */
  lemma {:induction false} JoinChars(lines: seq<string>, separator: string, c: char)
    requires c in Join(lines, separator)
    ensures c in separator || exists i :: 0 <= i < |lines| && c in lines[i]
  {
    if |lines| > 1 && c !in lines[0] && c !in separator {
      JoinChars(lines[1..], separator, c);
      var i :| 0 <= i < |lines[1..]| && c in lines[1..][i];
      assert c in lines[i + 1];
    } else if |lines| > 0 && c in lines[0] {
      assert c in lines[0];
    }
  }

  // ---------------------------------------------------------------- line endings

  /** The lines with these endings between them. */
  function Ended(lines: seq<string>, ends: seq<string>): string
    requires |lines| == |ends| + 1
  {
    if ends == [] then lines[0] else lines[0] + (ends[0] + Ended(lines[1..], ends[1..]))
  }

  /** Each ending is one of the three, and no carriage return is read with the line feed that follows an empty line. */
  predicate ProperEnds(lines: seq<string>, ends: seq<string>)
    requires |lines| == |ends| + 1
  {
    && (forall i :: 0 <= i < |ends| ==> ends[i] == "\n" || ends[i] == "\r\n" || ends[i] == "\r")
    && (forall i :: 0 <= i < |ends| - 1 && ends[i] == "\r" && lines[i + 1] == "" ==> ends[i + 1] != "\n")
  }

  lemma {:induction false} NormalizePlain(line: string, rest: string)
    requires '\r' !in line && '\n' !in line
    ensures NormalizeNewlines(line + rest) == line + NormalizeNewlines(rest)
  {
    if line == "" {
      assert line + rest == rest;
    } else {
      assert line[0] in line && (line + rest)[1..] == line[1..] + rest;
      assert !("\r\n" <= line + rest) by {
        assert (line + rest)[0] == line[0];
      }
      NormalizePlain(line[1..], rest);
      assert ReplaceCrLf(line + rest) == [line[0]] + ReplaceCrLf(line[1..] + rest);
      assert ([line[0]] + ReplaceCrLf(line[1..] + rest))[1..] == ReplaceCrLf(line[1..] + rest);
      assert [line[0]] + line[1..] == line;
    }
  }

  lemma NormalizeEnd(end: string, rest: string)
    requires end == "\n" || end == "\r\n" || (end == "\r" && (rest == "" || rest[0] != '\n'))
    ensures NormalizeNewlines(end + rest) == "\n" + NormalizeNewlines(rest)
  {
    var text := end + rest;
    assert text[|end|..] == rest && text[..|end|] == end;
    var first := if end == "\r" then "\r" else "\n";
    assert ReplaceCrLf(text) == first + ReplaceCrLf(rest);
    assert (first + ReplaceCrLf(rest))[1..] == ReplaceCrLf(rest);
  }

  /** Every ending becomes one line feed. */
  lemma {:induction false} EndedNormalized(lines: seq<string>, ends: seq<string>)
    requires |lines| == |ends| + 1 && ProperEnds(lines, ends)
    requires forall line :: line in lines ==> '\r' !in line && '\n' !in line
    ensures NormalizeNewlines(Ended(lines, ends)) == Join(lines, "\n")
    decreases |ends|
  {
    hide NormalizeNewlines;
    if ends == [] {
      NormalizeIdentity(lines[0]);
    } else {
      var rest := Ended(lines[1..], ends[1..]);
      EndedNormalized(lines[1..], ends[1..]);
      EndedStarts(lines, ends);
      NormalizePlain(lines[0], ends[0] + rest);
      NormalizeEnd(ends[0], rest);
      assert lines[0] + "\n" + Join(lines[1..], "\n") == lines[0] + ("\n" + Join(lines[1..], "\n"));
    }
  }

  lemma EndedStarts(lines: seq<string>, ends: seq<string>)
    requires |lines| == |ends| + 1 && ends != [] && ProperEnds(lines, ends)
    requires forall line :: line in lines ==> '\r' !in line && '\n' !in line
    ensures ProperEnds(lines[1..], ends[1..])
    ensures var rest := Ended(lines[1..], ends[1..]); ends[0] == "\r" ==> rest == "" || rest[0] != '\n'
  {
    var rest := Ended(lines[1..], ends[1..]);
    if lines[1] != "" {
      assert rest[0] == lines[1][0] && lines[1][0] in lines[1];
    } else if |ends| > 1 {
      assert rest == "" + (ends[1] + Ended(lines[1..][1..], ends[1..][1..]));
      assert rest[0] == ends[1][0];
    }
  }

  lemma {:induction false} EndedChars(lines: seq<string>, ends: seq<string>)
    requires |lines| == |ends| + 1 && ProperEnds(lines, ends)
    requires forall line :: line in lines ==> '\0' !in line
    ensures '\0' !in Ended(lines, ends)
    decreases |ends|
  {
    assert lines[0] in lines;
    if ends != [] {
      EndedChars(lines[1..], ends[1..]);
    }
  }

  predicate IsDigit(c: char) {
    '0' <= c <= '9'
  }

  predicate AllDigits(s: string) {
    forall c :: c in s ==> IsDigit(c)
  }

  /** `int(s)` for a string of ASCII digits. */
  function NumeralValue(s: string): nat
    requires AllDigits(s)
  {
    if s == "" then 0
    else
      assert s[|s| - 1] in s;
      assert forall c :: c in s[..|s| - 1] ==> c in s;
      10 * NumeralValue(s[..|s| - 1]) + (s[|s| - 1] as int - '0' as int)
  }

  /** `str(n)`. */
  function Decimal(n: nat): (s: string)
    ensures s != "" && AllDigits(s)
    ensures s == "0" || s[0] != '0'
    ensures NumeralValue(s) == n
  {
    var last := ('0' as int + n % 10) as char;
    if n < 10 then
      assert [last][..0] == "";
      [last]
    else
      var s := Decimal(n / 10) + [last];
      assert s[..|s| - 1] == Decimal(n / 10);
      s
  }

  lemma {:induction false} DecimalGrowth(m: nat, n: nat)
    requires m <= n
    ensures |Decimal(m)| <= |Decimal(n)| <= |Decimal(m)| + (n - m)
    decreases n
  {
    if n >= 10 {
      if m < 10 {
        DecimalGrowth(1, n / 10);
        assert |Decimal(n / 10)| <= 1 + (n / 10 - 1);
      } else {
        DecimalGrowth(m / 10, n / 10);
      }
    }
  }
}
