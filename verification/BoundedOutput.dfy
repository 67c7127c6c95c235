/**
 Bounded output: the pipe that keeps the first bytes of a stream, and the texts cut to a
 number of bytes with a marker (app/sandbox/runner.py:164-182, 539-559;
 app/agent/context.py:292-299; app/sandbox/results.py:9). UTF-8 is that of section 3 of
 RFC 3629.
 */
module BoundedOutput {
  import opened Wrappers
  import opened Utf8

  const MARKER := "\n[tracefix output truncated]\n"
  const MARKER_SIZE := 29
  const SHORT_MARKER := "\n<truncated>"
  const SHORT_MARKER_SIZE := 12
  const REPLACEMENT := "\U{FFFD}"

  lemma MarkerSizes()
    ensures |Encode(MARKER)| == MARKER_SIZE && |Encode(SHORT_MARKER)| == SHORT_MARKER_SIZE
  {
    hide Encode;
    AsciiLength(MARKER);
    AsciiLength(SHORT_MARKER);
  }

  // ---------------------------------------------------------------- the pipe

  function Concat(chunks: seq<seq<byte>>): seq<byte> {
    if chunks == [] then [] else Concat(chunks[..|chunks| - 1]) + chunks[|chunks| - 1]
  }

  function First(b: seq<byte>, n: nat): seq<byte> {
    if |b| <= n then b else b[..n]
  }

  /** `_bounded_pipe`'s drain over the chunks that are read: the first bytes, and whether there were more. */
  method Drain(chunks: seq<seq<byte>>, limit: nat) returns (retained: seq<byte>, truncated: bool)
    ensures retained == First(Concat(chunks), limit)
    ensures truncated <==> |Concat(chunks)| > limit
  {
    retained, truncated := [], false;
    var i := 0;
    while i < |chunks|
      invariant 0 <= i <= |chunks|
      invariant retained == First(Concat(chunks[..i]), limit)
      invariant truncated <==> |Concat(chunks[..i])| > limit
    {
      var chunk := chunks[i];
      assert chunks[..i + 1][..i] == chunks[..i];
      var remaining := limit - |retained|;
      if remaining > 0 {
        retained := retained + First(chunk, remaining);
      }
      if |chunk| > remaining {
        truncated := true;
      }
      i := i + 1;
    }
    assert chunks[..i] == chunks;
  }

  // ---------------------------------------------------------------- text with a marker

  /** The text `_bounded_text` puts before its marker. */
  function CutText(prefix: seq<byte>, budget: nat): (text: string)
    requires |prefix| <= budget
    ensures |Encode(text)| <= budget
    decreases |prefix|
  {
    match Decode(prefix)
    case Ok(text) =>
      EncodeDecode(prefix);
      text
    case Err(e) =>
      DecodeErrorInside(prefix);
      if e.truncated && e.end == |prefix| then CutText(prefix[..e.start], budget)
      else ShrinkText(DecodeLossy(prefix, REPLACEMENT), budget)
  }

  /** Characters are dropped from the end until the text fits. */
  function ShrinkText(text: string, budget: nat): (r: string)
    ensures |Encode(r)| <= budget && r <= text
  {
    if |Encode(text)| <= budget then text else ShrinkText(text[..|text| - 1], budget)
  }

  lemma {:induction false} DecodeErrorInside(b: seq<byte>)
    requires Decode(b).Err?
    ensures Decode(b).error.start < Decode(b).error.end <= |b|
  {
    hide ReadFront;
    var front := ReadFront(b);
    if front.Char? {
      DecodeErrorInside(b[front.size..]);
    }
  }

  /** `_bounded_text`. */
  method BoundedText(payload: seq<byte>, limit: nat, alreadyTruncated: bool) returns (text: string, truncated: bool)
    requires limit >= MARKER_SIZE
    ensures truncated <==> alreadyTruncated || |payload| > limit
    ensures !truncated ==> text == DecodeLossy(payload, REPLACEMENT)
    ensures truncated ==> |Encode(text)| <= limit && text == CutText(First(payload, limit - MARKER_SIZE), limit - MARKER_SIZE) + MARKER
  {
    hide Encode, ReadFront, DecodeLossy;
    truncated := alreadyTruncated || |payload| > limit;
    if !truncated {
      text := DecodeLossy(payload, REPLACEMENT);
      return;
    }
    var budget := limit - MARKER_SIZE;
    var prefix := First(payload, budget);
    text := "";
    EmptyCut(budget);
    while prefix != []
      invariant |prefix| <= budget
      invariant text == "" && CutText(First(payload, budget), budget) == CutText(prefix, budget)
      decreases |prefix|
    {
      var decoded := Decode(prefix);
      if decoded.Ok? {
        text := decoded.value;
        break;
      }
      DecodeErrorInside(prefix);
      var error := decoded.error;
      if error.truncated && error.end == |prefix| {
        prefix := prefix[..error.start];
      } else {
        text := DecodeLossy(prefix, REPLACEMENT);
        while |Encode(text)| > budget
          invariant ShrinkText(text, budget) == CutText(prefix, budget)
          decreases |text|
        {
          NotEmptyText(text, budget);
          text := text[..|text| - 1];
        }
        break;
      }
    }
    assert text == CutText(First(payload, budget), budget);
    EncodeAppend(text, MARKER);
    MarkerSizes();
    text := text + MARKER;
  }

  lemma EmptyCut(budget: nat)
    ensures CutText([], budget) == ""
  {
  }

  lemma NotEmptyText(text: string, budget: nat)
    requires |Encode(text)| > budget
    ensures text != ""
  {
  }

  /** Of a stream that is UTF-8, cut anywhere, the text is the longest run of whole characters that fits. */
  lemma CutTextOfUtf8(s: string, n: nat, budget: nat)
    requires n <= budget && n <= |Encode(s)|
    ensures CutText(Encode(s)[..n], budget) == s[..Fitting(s, n)]
  {
    hide Encode, DecodeLossy;
    var k, cut := Fitting(s, n), Encode(s)[..n];
    CutEncoding(s, n, REPLACEMENT);
    FittingIsLongest(s, n);
    var whole := |Encode(s[..k])|;
    if whole < n {
      CutAtCharacter(s, k, n);
      assert cut[..whole] == Encode(s[..k]);
      DecodeEncode(s[..k]);
    }
  }

  /** The first characters are encoded first. */
  lemma CutAtCharacter(s: string, k: nat, n: nat)
    requires k <= |s| && |Encode(s[..k])| <= n <= |Encode(s)|
    ensures Encode(s)[..n][..|Encode(s[..k])|] == Encode(s[..k])
  {
    EncodeAppend(s[..k], s[k..]);
    assert s == s[..k] + s[k..];
  }

  /** What a limit makes of a text: itself, or as many whole characters as fit before the marker. */
  function Bounded(s: string, limit: nat, marker: string, markerSize: nat): string
    requires limit >= markerSize
  {
    if |Encode(s)| <= limit then s else s[..Fitting(s, limit - markerSize)] + marker
  }

  /** From the chunks of a stream to the text: for UTF-8 output in any chunks, the output or its longest fitting beginning. */
  method CaptureText(chunks: seq<seq<byte>>, limit: nat, ghost s: string) returns (text: string, truncated: bool)
    requires limit >= MARKER_SIZE && Concat(chunks) == Encode(s)
    ensures truncated <==> |Encode(s)| > limit
    ensures text == Bounded(s, limit, "\n[tracefix output truncated]\n", 29)
    ensures truncated ==> |Encode(text)| <= limit
  {
    hide Encode, DecodeLossy, Fitting, CutText;
    var retained, flag := Drain(chunks, limit);
    text, truncated := BoundedText(retained, limit, flag);
    if truncated {
      var budget := limit - MARKER_SIZE;
      assert First(retained, budget) == Encode(s)[..budget];
      CutTextOfUtf8(s, budget, budget);
    } else {
      DecodeEncode(s);
      LossyOfDecoded(Encode(s), REPLACEMENT);
    }
  }

  // ---------------------------------------------------------------- context excerpts

  /** `_bounded_utf8`: the text as it is, or the first whole characters and a marker. */
  function BoundedUtf8(value: string, limit: nat): (string, bool) {
    var encoded := Encode(value);
    if |encoded| <= limit then (value, false)
    else
      var room := if limit >= SHORT_MARKER_SIZE then limit - SHORT_MARKER_SIZE else 0;
      (DecodeLossy(encoded[..room], "") + SHORT_MARKER, true)
  }

  lemma Unchanged(s: string)
    ensures s + "" == s
  {
  }

  /** With a limit that holds the marker, the result is the longest fitting beginning. */
  lemma BoundedUtf8IsLongest(value: string, limit: nat)
    requires limit >= SHORT_MARKER_SIZE
    ensures BoundedUtf8(value, limit) == (Bounded(value, limit, "\n<truncated>", 12), |Encode(value)| > limit)
  {
    hide Encode, DecodeLossy, Fitting;
    if |Encode(value)| > limit {
      CutEncoding(value, limit - SHORT_MARKER_SIZE, "");
      Unchanged(value[..Fitting(value, limit - SHORT_MARKER_SIZE)]);
    }
  }

  /** The result is within the limit exactly when the limit holds the marker or the value is within it already. */
  lemma BoundedUtf8Fits(value: string, limit: nat)
    ensures |Encode(BoundedUtf8(value, limit).0)| <= limit <==> limit >= 12 || |Encode(value)| <= limit
  {
    hide Encode, DecodeLossy, Fitting;
    MarkerSizes();
    if |Encode(value)| > limit {
      var room := if limit >= SHORT_MARKER_SIZE then limit - SHORT_MARKER_SIZE else 0;
      CutEncoding(value, room, "");
      Unchanged(value[..Fitting(value, room)]);
      FittingIsLongest(value, room);
      EncodeAppend(value[..Fitting(value, room)], SHORT_MARKER);
    }
  }
}
