/**
 UTF-8 as section 3 of RFC 3629 defines it: the encoder, the strict decoder with the
 place and kind of its error, and the decoder that replaces what is not well formed.
 */
module Utf8 {
  import opened Wrappers

  type byte = x: int | 0 <= x < 256

  // ---------------------------------------------------------------- encoding

  function EncodeChar(c: char): (r: seq<byte>)
    ensures 1 <= |r| <= 4
  {
    EncodeScalar(c as int)
  }

  /** The scalar value in groups of six bits, the last group first. */
  function EncodeScalar(n: int): (r: seq<byte>)
    requires 0 <= n < 0x110000
    ensures 1 <= |r| <= 4
  {
    if n < 0x80 then [n]
    else if n < 0x800 then [0xC0 + n / 64, 0x80 + n % 64]
    else if n < 0x10000 then [0xE0 + n / 64 / 64, 0x80 + n / 64 % 64, 0x80 + n % 64]
    else [0xF0 + n / 64 / 64 / 64, 0x80 + n / 64 / 64 % 64, 0x80 + n / 64 % 64, 0x80 + n % 64]
  }

  /** The table of section 3 of RFC 3629: how many bytes a character takes, what they start with, and that its value is
      theirs, six bits a byte after the first. */
  lemma ScalarBytes(c: char)
    ensures var n, r := c as int, EncodeChar(c);
            && |r| == (if n < 0x80 then 1 else if n < 0x800 then 2 else if n < 0x10000 then 3 else 4)
            && (forall i :: 1 <= i < |r| ==> 0x80 <= r[i] < 0xC0)
            && (|r| == 1 ==> n == r[0])
            && (|r| == 2 ==> 0xC0 <= r[0] < 0xE0 && n == Six(r[0], 0xC0) * 0x40 + Six(r[1], 0x80))
            && (|r| == 3 ==> 0xE0 <= r[0] < 0xF0 && n == Six(r[0], 0xE0) * 0x1000 + Six(r[1], 0x80) * 0x40 + Six(r[2], 0x80))
            && (|r| == 4 ==> 0xF0 <= r[0] < 0xF8)
            && (|r| == 4 ==>
                 n == Six(r[0], 0xF0) * 0x40000 + Six(r[1], 0x80) * 0x1000 + Six(r[2], 0x80) * 0x40 + Six(r[3], 0x80))
  {
  }

  /** The bits of a byte above its tag. */
  function Six(b: int, tag: int): int {
    b - tag
  }

  function Encode(s: string): seq<byte> {
    if s == "" then [] else EncodeChar(s[0]) + Encode(s[1..])
  }

  lemma {:induction false} EncodeAppend(a: string, b: string)
    ensures Encode(a + b) == Encode(a) + Encode(b)
  {
    hide EncodeChar;
    if a == "" {
      assert a + b == b;
    } else {
      EncodeAppend(a[1..], b);
      assert (a + b)[1..] == a[1..] + b;
    }
  }

  /** ASCII takes a byte a character. */
  lemma {:induction false} AsciiLength(s: string)
    requires forall c :: c in s ==> c < '\U{80}'
    ensures |Encode(s)| == |s|
  {
    if s != "" {
      assert s[0] in s;
      assert forall c :: c in s[1..] ==> c in s;
      AsciiLength(s[1..]);
    }
  }

  // ---------------------------------------------------------------- decoding

  /** How many bytes a sequence with this first byte has; zero when no sequence starts so. */
  function SequenceLength(first: byte): (n: nat)
    ensures n <= 4
  {
    if first < 0x80 then 1
    else if first < 0xC2 then 0
    else if first < 0xE0 then 2
    else if first < 0xF0 then 3
    else if first < 0xF5 then 4
    else 0
  }

  predicate Continuation(b: byte) {
    0x80 <= b < 0xC0
  }

  /** The second bytes that keep the sequence shortest, off the surrogates and within range. */
  predicate SecondByte(first: byte, second: byte) {
    && Continuation(second)
    && (first == 0xE0 ==> second >= 0xA0)
    && (first == 0xED ==> second < 0xA0)
    && (first == 0xF0 ==> second >= 0x90)
    && (first == 0xF4 ==> second < 0x90)
  }

  /** What stands at the front of some bytes: a character, or bytes that are not one. */
  datatype Front = Char(c: char, size: nat) | Bad(size: nat, truncated: bool)

  /** A group of six bits added to what came before. */
  function Grow(high: int, next: int): int {
    high * 64 + (next - 0x80)
  }

  function ReadFront(b: seq<byte>): (r: Front)
    requires b != []
    ensures 1 <= r.size <= |b| && r.size <= 4
    ensures r.Bad? && r.truncated ==> r.size == |b|
  {
    var length := SequenceLength(b[0]);
    var first: int := b[0];
    if length == 0 then Bad(1, false)
    else if length == 1 then Char(first as char, 1)
    else if |b| < 2 then Bad(1, true)
    else if !SecondByte(b[0], b[1]) then Bad(1, false)
    else if length == 2 then Char(Grow(first - 0xC0, b[1]) as char, 2)
    else if |b| < 3 then Bad(2, true)
    else if !Continuation(b[2]) then Bad(2, false)
    else if length == 3 then Char(Grow(Grow(first - 0xE0, b[1]), b[2]) as char, 3)
    else if |b| < 4 then Bad(3, true)
    else if !Continuation(b[3]) then Bad(3, false)
    else Char(Grow(Grow(Grow(first - 0xF0, b[1]), b[2]), b[3]) as char, 4)
  }

  lemma GrowParts(high: int, next: int)
    requires 0x80 <= next < 0xC0
    ensures Grow(high, next) / 64 == high && Grow(high, next) % 64 == next - 0x80
  {
  }

  lemma PartsGrow(n: int)
    requires n >= 0
    ensures Grow(n / 64, 0x80 + n % 64) == n
  {
  }

  lemma FrontOfEncoding(c: char, rest: seq<byte>)
    ensures ReadFront(EncodeChar(c) + rest) == Char(c, |EncodeChar(c)|)
  {
    hide Grow;
    var n := c as int;
    PartsGrow(n);
    PartsGrow(n / 64);
    PartsGrow(n / 64 / 64);
    var code := EncodeScalar(n);
    var b := code + rest;
    assert forall i :: 0 <= i < |code| ==> b[i] == code[i];
  }

  lemma EncodingOfFront(b: seq<byte>)
    requires b != [] && ReadFront(b).Char?
    ensures EncodeChar(ReadFront(b).c) == b[..ReadFront(b).size]
  {
    var size := ReadFront(b).size;
    if size == 2 {
      GrowParts(b[0] - 0xC0, b[1]);
      assert b[..2] == [b[0], b[1]];
    } else if size == 3 {
      var high := Grow(b[0] - 0xE0, b[1]);
      GrowParts(b[0] - 0xE0, b[1]);
      GrowParts(high, b[2]);
      assert b[..3] == [b[0], b[1], b[2]];
    } else if size == 4 {
      var high := Grow(b[0] - 0xF0, b[1]);
      GrowParts(b[0] - 0xF0, b[1]);
      GrowParts(high, b[2]);
      GrowParts(Grow(high, b[2]), b[3]);
      assert b[..4] == [b[0], b[1], b[2], b[3]];
    }
  }

  /** Where strict decoding stops, and whether it stopped because the bytes ended. */
  datatype DecodeError = DecodeError(start: nat, end: nat, truncated: bool)

  /** `data.decode("utf-8")`. */
  function Decode(b: seq<byte>): Result<string, DecodeError> {
    if b == [] then Ok("")
    else
      var front := ReadFront(b);
      if front.Bad? then Err(DecodeError(0, front.size, front.truncated))
      else
        match Decode(b[front.size..])
        case Ok(rest) => Ok([front.c] + rest)
        case Err(e) => Err(DecodeError(front.size + e.start, front.size + e.end, e.truncated))
  }

  lemma {:induction false} DecodeEncode(s: string)
    ensures Decode(Encode(s)) == Ok(s)
  {
    hide ReadFront, EncodeChar;
    if s != "" {
      FrontOfEncoding(s[0], Encode(s[1..]));
      DecodeEncode(s[1..]);
      assert [s[0]] + s[1..] == s;
    }
  }

  lemma {:induction false} EncodeDecode(b: seq<byte>)
    requires Decode(b).Ok?
    ensures Encode(Decode(b).value) == b
  {
    hide ReadFront, EncodeChar;
    if b != [] {
      var front := ReadFront(b);
      EncodingOfFront(b);
      EncodeDecode(b[front.size..]);
      assert Decode(b).value[1..] == Decode(b[front.size..]).value;
    }
  }

  /** `data.decode("utf-8", errors=...)`: what is no character gives the replacement, empty or not. */
  function DecodeLossy(b: seq<byte>, replacement: string): string {
    if b == [] then ""
    else
      var front := ReadFront(b);
      (if front.Char? then [front.c] else replacement) + DecodeLossy(b[front.size..], replacement)
  }

  /** Well-formed bytes decode alike either way. */
  lemma {:induction false} LossyOfDecoded(b: seq<byte>, replacement: string)
    requires Decode(b).Ok?
    ensures DecodeLossy(b, replacement) == Decode(b).value
  {
    hide ReadFront;
    if b != [] {
      LossyOfDecoded(b[ReadFront(b).size..], replacement);
    }
  }

  // ---------------------------------------------------------------- encodings that are cut

  /** How many characters of the string fit in so many bytes. */
  function Fitting(s: string, room: nat): (k: nat)
    ensures k <= |s|
  {
    if s == "" || |EncodeChar(s[0])| > room then 0 else 1 + Fitting(s[1..], room - |EncodeChar(s[0])|)
  }

  /** The characters that fit, fit, and one more does not. */
  lemma {:induction false} FittingIsLongest(s: string, room: nat)
    ensures var k := Fitting(s, room);
            |Encode(s[..k])| <= room && (k < |s| ==> |Encode(s[..k + 1])| > room)
  {
    hide EncodeChar;
    var k := Fitting(s, room);
    if k == 0 {
      assert s[..0] == "";
      if s != "" {
        assert s[..1][1..] == "";
      }
    } else {
      FittingIsLongest(s[1..], room - |EncodeChar(s[0])|);
      assert s[..k][1..] == s[1..][..k - 1];
      if k < |s| {
        assert s[..k + 1][1..] == s[1..][..k];
      }
    }
  }

  /** A sequence that is cut is recognised as one that only lacks its end. */
  lemma CutFront(c: char, m: nat)
    requires 0 < m < |EncodeChar(c)|
    ensures ReadFront(EncodeChar(c)[..m]) == Bad(m, true)
  {
    hide Grow;
  }

  /** Cutting after the first character cuts what follows it. */
  lemma CutAfterFirst(s: string, n: nat)
    requires s != "" && |EncodeChar(s[0])| <= n <= |Encode(s)|
    ensures var code, k := EncodeChar(s[0]), Fitting(s, n);
            var m := n - |code|;
            && m <= |Encode(s[1..])| && k == 1 + Fitting(s[1..], m)
            && Encode(s)[..n] == code + Encode(s[1..])[..m]
            && s[..k] == [s[0]] + s[1..][..k - 1]
            && |Encode(s[..k])| == |code| + |Encode(s[1..][..k - 1])|
  {
    hide EncodeChar;
    var code, k := EncodeChar(s[0]), Fitting(s, n);
    assert Encode(s) == code + Encode(s[1..]);
    assert s[..k][1..] == s[1..][..k - 1];
  }

  /** Cutting inside the first character leaves none. */
  lemma CutInFirst(s: string, n: nat)
    requires s != "" && 0 < n <= |Encode(s)| && n < |EncodeChar(s[0])|
    ensures Fitting(s, n) == 0 && s[..0] == "" && Encode(s[..0]) == []
    ensures Encode(s)[..n] != [] && ReadFront(Encode(s)[..n]) == Bad(n, true)
  {
    hide ReadFront, EncodeChar;
    assert Encode(s)[..n] == EncodeChar(s[0])[..n];
    CutFront(s[0], n);
  }

  lemma DecodeFront(c: char, rest: seq<byte>)
    ensures EncodeChar(c) != []
    ensures Decode(EncodeChar(c) + rest) ==
            match Decode(rest)
            case Ok(text) => Ok([c] + text)
            case Err(e) => Err(DecodeError(|EncodeChar(c)| + e.start, |EncodeChar(c)| + e.end, e.truncated))
    ensures forall replacement :: DecodeLossy(EncodeChar(c) + rest, replacement) == [c] + DecodeLossy(rest, replacement)
  {
    hide ReadFront, EncodeChar;
    FrontOfEncoding(c, rest);
    assert (EncodeChar(c) + rest)[|EncodeChar(c)|..] == rest;
  }

  /** Strict decoding of a cut encoding stops where the cut character starts, at the end of the data. */
  lemma {:induction false} CutDecodes(s: string, n: nat)
    requires n <= |Encode(s)|
    ensures var k := Fitting(s, n);
            var whole := |Encode(s[..k])|;
            Decode(Encode(s)[..n]) == if whole == n then Ok(s[..k]) else Err(DecodeError(whole, n, true))
    decreases |s|
  {
    hide ReadFront, EncodeChar, Fitting, Encode;
    if n == 0 {
      NothingFits(s);
    } else {
      NotEmptyEncoded(s);
      if |EncodeChar(s[0])| > n {
        CutInFirst(s, n);
      } else {
        var m := n - |EncodeChar(s[0])|;
        CutAfterFirst(s, n);
        DecodeFront(s[0], Encode(s[1..])[..m]);
        CutDecodes(s[1..], m);
      }
    }
  }

  /** Lenient decoding of a cut encoding adds one replacement for the cut character. */
  lemma {:induction false} CutDecodesLossy(s: string, n: nat, replacement: string)
    requires n <= |Encode(s)|
    ensures var k := Fitting(s, n);
            DecodeLossy(Encode(s)[..n], replacement) == s[..k] + if |Encode(s[..k])| == n then "" else replacement
    decreases |s|
  {
    hide ReadFront, EncodeChar, Fitting, Encode;
    if n == 0 {
      NothingFits(s);
    } else {
      NotEmptyEncoded(s);
      if |EncodeChar(s[0])| > n {
        CutInFirst(s, n);
        assert Encode(s)[..n][n..] == [];
      } else {
        var m, k := n - |EncodeChar(s[0])|, Fitting(s, n);
        CutAfterFirst(s, n);
        DecodeFront(s[0], Encode(s[1..])[..m]);
        CutDecodesLossy(s[1..], m, replacement);
      }
    }
  }

  lemma NotEmptyEncoded(s: string)
    ensures Encode(s) != [] ==> s != ""
  {
  }

  /** An encoding that is cut somewhere: its whole characters, and what is left of the next. */
  lemma CutEncoding(s: string, n: nat, replacement: string)
    requires n <= |Encode(s)|
    ensures var k, cut := Fitting(s, n), Encode(s)[..n];
            var whole := |Encode(s[..k])|;
            && Decode(cut) == (if whole == n then Ok(s[..k]) else Err(DecodeError(whole, n, true)))
            && DecodeLossy(cut, replacement) == s[..k] + (if whole == n then "" else replacement)
  {
    hide Decode, DecodeLossy, Encode, Fitting;
    CutDecodes(s, n);
    CutDecodesLossy(s, n, replacement);
  }

  lemma NothingFits(s: string)
    ensures Fitting(s, 0) == 0 && s[..0] == "" && Encode(s[..0]) == [] && Encode(s)[..0] == []
  {
  }
}
