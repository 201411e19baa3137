/**
  Message framing (src/transport.rs; LSP 3.17, "Base Protocol", "Header Part"):
  what one frame looks like on the wire, and what reading a byte stream yields.
 */
module Frames {
  import opened Strings
  import opened Ascii
  import opened Wrappers

  const MAX_CONTENT_LENGTH := 256 * 1024 * 1024
  const CR: byte := 13

  datatype FrameError =
    | ClosedInHeaders | NotUtf8 | MalformedHeader | InvalidLength | MissingLength | TooLong | ClosedMidMessage

  // ----- numbers

  function Decimal(n: nat): (s: Bytes)
    ensures s != [] && forall i :: 0 <= i < |s| ==> IsDigit(s[i])
  {
    if n < 10 then [0x30 + n] else Decimal(n / 10) + [0x30 + n % 10]
  }

  function DigitsValue(s: Bytes): nat
    requires forall i :: 0 <= i < |s| ==> IsDigit(s[i])
  {
    if s == [] then 0
    else
      assert IsDigit(s[|s| - 1]);
      DigitsValue(s[..|s| - 1]) * 10 + (s[|s| - 1] as int - 0x30)
  }

  predicate AllDigits(s: Bytes) {
    forall i :: 0 <= i < |s| ==> IsDigit(s[i])
  }

  /** Rust's `usize` parser on 64 bits: digits after an optional plus sign, no overflow. */
  function ParseUsize(s: Bytes): Option<nat> {
    var digits := if |s| > 1 && s[0] == 0x2B then s[1..] else s;
    if digits == [] || !AllDigits(digits) || DigitsValue(digits) >= 0x1_0000_0000_0000_0000 then None
    else Some(DigitsValue(digits))
  }

  lemma {:induction false} DecimalValue(n: nat)
    ensures DigitsValue(Decimal(n)) == n
  {
    if n >= 10 {
      DecimalValue(n / 10);
      assert Decimal(n)[..|Decimal(n)| - 1] == Decimal(n / 10);
    }
  }

  lemma ParseInvertsDecimal(n: nat)
    requires n < 0x1_0000_0000_0000_0000
    ensures ParseUsize(Decimal(n)) == Some(n)
  {
    DecimalValue(n);
  }

  // ----- white space (the Unicode White_Space property, as `str::trim` uses it)

  predicate White(scalar: nat) {
    || 9 <= scalar <= 13 || scalar == 0x20 || scalar == 0x85 || scalar == 0xA0 || scalar == 0x1680
    || 0x2000 <= scalar <= 0x200A || scalar == 0x2028 || scalar == 0x2029 || scalar == 0x202F
    || scalar == 0x205F || scalar == 0x3000
  }

  function TrimStart(s: Bytes): Bytes
    decreases |s|
  {
    if s != [] && White(Scalar(s)) then TrimStart(s[Width(s)..]) else s
  }

  function TrimEnd(s: Bytes): Bytes
    decreases |s|
  {
    if s == [] then []
    else
      var rest := TrimEnd(s[Width(s)..]);
      if rest == [] && White(Scalar(s)) then [] else s[..Width(s)] + rest
  }

  function Trim(s: Bytes): Bytes {
    TrimEnd(TrimStart(s))
  }

  /** Without the carriage returns and line feeds at its end. */
  function TrimLineEnd(s: Bytes): (r: Bytes)
    ensures r <= s
  {
    if s != [] && (s[|s| - 1] == CR || s[|s| - 1] == LF) then TrimLineEnd(s[..|s| - 1]) else s
  }

  // ----- reading

  datatype Headers = NoMore | Length(n: nat) | BadHeaders(error: FrameError)

  /** The next line with its line feed, or all that is left. */
  function LineLength(s: Bytes): (n: nat)
    requires s != []
    ensures 1 <= n <= |s|
  {
    if IndexOf(s, LF) < |s| then IndexOf(s, LF) + 1 else |s|
  }

  /** The header block's verdict once its closing empty line is reached. */
  function Finish(length: Option<nat>): Headers {
    match length
    case None => BadHeaders(MissingLength)
    case Some(n) => if n > MAX_CONTENT_LENGTH then BadHeaders(TooLong) else Length(n)
  }

  const CONTENT_LENGTH: Bytes := Lit("content-length")

  /** What one non-empty header line does to the length seen so far. */
  function HeaderLine(trimmed: Bytes, length: Option<nat>): Result<Option<nat>, FrameError> {
    var colon := IndexOf(trimmed, COLON);
    if colon == |trimmed| then Err(MalformedHeader)
    else if LowerAll(Trim(trimmed[..colon])) != CONTENT_LENGTH then Ok(length)
    else match ParseUsize(Trim(trimmed[colon + 1..]))
      case None => Err(InvalidLength)
      case Some(n) => Ok(Some(n))
  }

  /** The header block at the front of `s`, and what follows it. */
  function ReadHeaders(s: Bytes, length: Option<nat>, sawAnyByte: bool): (r: (Headers, Bytes))
    ensures if s == [] then !r.0.Length? && r.1 == [] else |r.1| < |s| && !r.0.NoMore?
    decreases |s|
  {
    if s == [] then (if sawAnyByte then BadHeaders(ClosedInHeaders) else NoMore, [])
    else
      var line := s[..LineLength(s)];
      var rest := s[LineLength(s)..];
      if !Valid(line) then (BadHeaders(NotUtf8), rest)
      else if TrimLineEnd(line) == [] then (Finish(length), rest)
      else match HeaderLine(TrimLineEnd(line), length)
        case Err(e) => (BadHeaders(e), rest)
        case Ok(next) =>
        assert rest == [] ==> ReadHeaders(rest, next, true).0 == BadHeaders(ClosedInHeaders);
        ReadHeaders(rest, next, true)
  }

  datatype Read = End | Body(body: Bytes) | Failure(error: FrameError)

  /** One read of the stream: a clean end, a body, or an error; and what is left to read. */
  function ReadFrame(s: Bytes): (r: (Read, Bytes))
    ensures r.0.Body? ==> |r.1| < |s|
  {
    match ReadHeaders(s, None, false)
    case (NoMore, rest) => (End, rest)
    case (BadHeaders(e), rest) => (Failure(e), rest)
    case (Length(n), rest) =>
      if |rest| < n then (Failure(ClosedMidMessage), []) else (Body(rest[..n]), rest[n..])
  }

  // ----- writing

  const PREFIX: Bytes := Lit("Content-Length: ")
  const CRLF: Bytes := [CR, LF]

  function FirstLine(n: nat): Bytes {
    PREFIX + Decimal(n) + CRLF
  }

  function Frame(body: Bytes): Bytes {
    FirstLine(|body|) + CRLF + body
  }

  function FramesOf(bodies: seq<Bytes>): Bytes {
    if bodies == [] then [] else Frame(bodies[0]) + FramesOf(bodies[1..])
  }

  /** What a frame is on the wire, byte for byte. */
  lemma FrameOnTheWire(body: Bytes)
    ensures PREFIX == Lit("Content-Length: ")
    ensures Frame(body) == PREFIX + Decimal(|body|) + [0x0D, 0x0A, 0x0D, 0x0A] + body
  {
    hide Decimal, Lit;
    TwoLineEnds(PREFIX + Decimal(|body|), body);
  }

  lemma TwoLineEnds(head: Bytes, body: Bytes)
    ensures head + [0x0D, 0x0A] + [0x0D, 0x0A] + body == head + [0x0D, 0x0A, 0x0D, 0x0A] + body
  {
  }

  // ----- ASCII text

  predicate IsAscii(s: Bytes) {
    forall i :: 0 <= i < |s| ==> s[i] < 128
  }

  lemma {:induction false} AsciiValid(s: Bytes)
    requires IsAscii(s)
    ensures Valid(s)
    decreases |s|
  {
    if s != [] {
      AsciiValid(s[1..]);
    }
  }

  predicate Inked(s: Bytes) {
    forall i :: 0 <= i < |s| ==> 0x20 < s[i] < 0x80
  }

  /** ASCII without blanks is left alone by trimming. */
  lemma {:induction false} TrimInked(s: Bytes)
    requires Inked(s)
    ensures TrimEnd(s) == s && TrimStart(s) == s
    decreases |s|
  {
    if s != [] {
      TrimInked(s[1..]);
    }
  }

  // ----- the first line of a frame

  const NAME: Bytes := Lit("Content-Length")

  lemma InkedTrims(s: Bytes)
    requires Inked(s)
    ensures Trim(s) == s
  {
    TrimInked(s);
    hide TrimStart, TrimEnd;
  }

  lemma NameInked()
    ensures Inked(NAME)
  {
  }

  lemma NameTrims()
    ensures Trim(NAME) == NAME
  {
    NameInked();
    hide *;
    InkedTrims(NAME);
  }

  lemma NameLowers()
    ensures LowerAll(NAME) == CONTENT_LENGTH
  {
  }

  lemma PrefixIsName()
    ensures COLON !in NAME && PREFIX == NAME + [COLON, 0x20]
  {
  }

  lemma NameMatches()
    ensures LowerAll(Trim(NAME)) == CONTENT_LENGTH && COLON !in NAME && PREFIX == NAME + [COLON, 0x20]
  {
    NameTrims();
    NameLowers();
    PrefixIsName();
    hide *;
  }

  lemma ValueParses(n: nat)
    requires n < 0x1_0000_0000_0000_0000
    ensures ParseUsize(Trim([0x20] + Decimal(n))) == Some(n)
  {
    TrimInked(Decimal(n));
    ParseInvertsDecimal(n);
    hide ParseUsize, Decimal;
    var value := [0x20] + Decimal(n);
    assert value[1..] == Decimal(n) && Width(value) == 1 && White(Scalar(value));
  }

  /** A header line is split at its first colon. */
  lemma HeaderSplits(name: Bytes, value: Bytes, length: Option<nat>)
    requires COLON !in name
    ensures HeaderLine(name + [COLON] + value, length) ==
      if LowerAll(Trim(name)) != CONTENT_LENGTH then Ok(length)
      else match ParseUsize(Trim(value))
        case None => Err(InvalidLength)
        case Some(n) => Ok(Some(n))
  {
    ColonAt(name, value);
    hide Trim, ParseUsize, LowerAll, IndexOf, Lit;
  }

  lemma ColonAt(name: Bytes, value: Bytes)
    requires COLON !in name
    ensures var line := name + [COLON] + value;
      IndexOf(line, COLON) == |name| && line[..|name|] == name && line[|name| + 1..] == value
  {
    var line := name + [COLON] + value;
    assert line[|name|] == COLON && forall i :: 0 <= i < |name| ==> line[i] == name[i];
  }

  /** A frame's first header line announces the body's length. */
  lemma FirstLineAnnounces(n: nat)
    requires n < 0x1_0000_0000_0000_0000
    ensures HeaderLine(PREFIX + Decimal(n), None) == Ok(Some(n))
  {
    NameMatches();
    ValueParses(n);
    HeaderSplits(NAME, [0x20] + Decimal(n), None);
    Regrouped(NAME, Decimal(n));
    hide *;
  }

  lemma Regrouped(a: Bytes, b: Bytes)
    ensures a + [COLON, 0x20] + b == a + [COLON] + ([0x20] + b)
  {
  }

  lemma {:induction false} TrimLineEndOf(s: Bytes, tail: Bytes)
    requires s == [] || (s[|s| - 1] != CR && s[|s| - 1] != LF)
    requires forall i :: 0 <= i < |tail| ==> tail[i] == CR || tail[i] == LF
    ensures TrimLineEnd(s + tail) == s
    decreases |tail|
  {
    if tail == [] {
      assert s + tail == s;
    } else {
      var shorter := tail[..|tail| - 1];
      assert (s + tail)[..|s + tail| - 1] == s + shorter;
      TrimLineEndOf(s, shorter);
    }
  }

  lemma FirstLineShape(n: nat)
    ensures var line := FirstLine(n);
      && IsAscii(line) && Valid(line) && |line| == 16 + |Decimal(n)| + 2
      && (forall i :: 0 <= i < |line| - 1 ==> line[i] != LF) && line[|line| - 1] == LF
      && line[0] != CR
      && TrimLineEnd(line) == PREFIX + Decimal(n) != []
  {
    var line := FirstLine(n);
    var head := PREFIX + Decimal(n);
    assert line == head + CRLF;
    assert forall i :: 0 <= i < |head| ==> 0x20 <= head[i] < 128;
    AsciiValid(line);
    TrimLineEndOf(head, CRLF);
  }

  // ----- one frame and what follows it

  /** The first line of a frame is read whole, whatever follows. */
  lemma ReadFirstLine(n: nat, tail: Bytes)
    requires n < 0x1_0000_0000_0000_0000
    ensures ReadHeaders(FirstLine(n) + tail, None, false) == ReadHeaders(tail, Some(n), true)
  {
    FirstLineShape(n);
    FirstLineAnnounces(n);
    var line := FirstLine(n);
    var s := line + tail;
    assert IndexOf(s, LF) == |line| - 1 by {
      assert s[|line| - 1] == LF && forall i :: 0 <= i < |line| - 1 ==> s[i] == line[i];
    }
    assert s[..|line|] == line && s[|line|..] == tail;
    hide HeaderLine, TrimLineEnd, Valid, FirstLine, Decimal;
  }

  /** The empty line closes the header block. */
  lemma ReadEmptyLine(length: Option<nat>, tail: Bytes)
    ensures forall saw :: ReadHeaders(CRLF + tail, length, saw) == (Finish(length), tail)
  {
    var s := CRLF + tail;
    assert IndexOf(s, LF) == 1 by { assert s[0] == CR && s[1] == LF; }
    assert s[..2] == CRLF && s[2..] == tail;
    AsciiValid(CRLF);
    TrimLineEndOf([], CRLF);
    assert [] + CRLF == CRLF;
  }

  /** Reading a frame yields its body and leaves exactly what followed it. */
  lemma FrameRoundTrip(body: Bytes, tail: Bytes)
    requires |body| <= MAX_CONTENT_LENGTH
    ensures ReadFrame(Frame(body) + tail) == (Body(body), tail)
  {
    var n := |body|;
    assert Frame(body) + tail == FirstLine(n) + (CRLF + (body + tail));
    ReadFirstLine(n, CRLF + (body + tail));
    ReadEmptyLine(Some(n), body + tail);
    assert (body + tail)[..n] == body && (body + tail)[n..] == tail;
    hide ReadHeaders, Frame;
  }

  // ----- a frame cut short

  /** A first line that never ends is an error, whatever it says. */
  lemma UnfinishedLine(s: Bytes)
    requires s != [] && s[0] != CR && LF !in s
    ensures ReadHeaders(s, None, false).0.BadHeaders?
  {
    assert IndexOf(s, LF) == |s|;
    assert s[..|s|] == s && s[|s|..] == [];
    TrimKeepsFirst(s);
    hide HeaderLine, Valid, TrimLineEnd;
  }

  lemma {:induction false} TrimKeepsFirst(s: Bytes)
    requires s != [] && s[0] != CR && s[0] != LF
    ensures TrimLineEnd(s) != []
    decreases |s|
  {
    if |s| > 1 {
      TrimKeepsFirst(s[..|s| - 1]);
    }
  }

  /** After the first line: nothing, a lone carriage return, or a whole empty line and part of the body. */
  lemma CutAfterFirstLine(body: Bytes, k: nat)
    requires |body| <= MAX_CONTENT_LENGTH && k < 2 + |body|
    ensures ReadHeaders((CRLF + body)[..k], Some(|body|), true) ==
      if k == 0 then (BadHeaders(ClosedInHeaders), [])
      else if k == 1 then (Length(|body|), [])
      else (Length(|body|), body[..k - 2])
  {
    hide ReadHeaders;
    if k == 0 {
      assert (CRLF + body)[..k] == [];
      NothingFollows(|body|);
    } else if k == 1 {
      assert (CRLF + body)[..k] == [CR];
      LoneReturn(|body|);
    } else {
      assert (CRLF + body)[..k] == CRLF + body[..k - 2];
      ReadEmptyLine(Some(|body|), body[..k - 2]);
    }
  }

  lemma NothingFollows(n: nat)
    ensures ReadHeaders([], Some(n), true) == (BadHeaders(ClosedInHeaders), [])
  {
  }

  /** A carriage return that ends the stream closes the header block too. */
  lemma LoneReturn(n: nat)
    requires n <= MAX_CONTENT_LENGTH
    ensures ReadHeaders([CR], Some(n), true) == (Length(n), [])
  {
    var s: Bytes := [CR];
    AsciiValid(s);
    TrimLineEndOf([], s);
    assert [] + s == s;
    assert IndexOf(s, LF) == 1 && s[..1] == s && s[1..] == [];
    hide TrimLineEnd, Valid, HeaderLine, IndexOf;
  }

  /**
    A frame cut anywhere inside is an error, with a single exception: an empty
    body's frame without its last byte, whose lone carriage return already
    counts as the closing empty line.
   */
  lemma CutFrameFails(body: Bytes, k: nat)
    requires |body| <= MAX_CONTENT_LENGTH && 0 < k < |Frame(body)|
    ensures ReadFrame(Frame(body)[..k]).0.Failure? <==> !(body == [] && k == |Frame(body)| - 1)
    ensures !ReadFrame(Frame(body)[..k]).0.Failure? ==> ReadFrame(Frame(body)[..k]) == (Body([]), [])
    ensures k == |FirstLine(|body|)| ==> ReadFrame(Frame(body)[..k]).0 == Failure(ClosedInHeaders)
    ensures k > |FirstLine(|body|)| && body != [] ==> ReadFrame(Frame(body)[..k]).0 == Failure(ClosedMidMessage)
  {
    var n := |body|;
    hide ReadHeaders, FirstLine;
    if k < |FirstLine(n)| {
      CutInFirstLine(body, k);
    } else {
      assert |Frame(body)| == |FirstLine(n)| + 2 + |body|;
      CutLater(body, k - |FirstLine(n)|);
    }
  }

  lemma CutInFirstLine(body: Bytes, k: nat)
    requires 0 < k < |FirstLine(|body|)|
    ensures ReadHeaders(Frame(body)[..k], None, false).0.BadHeaders?
  {
    FirstLineShape(|body|);
    hide ReadHeaders, TrimLineEnd, Valid, Decimal;
    var s := Frame(body)[..k];
    assert s == FirstLine(|body|)[..k];
    UnfinishedLine(s);
  }

  lemma CutLater(body: Bytes, j: nat)
    requires |body| <= MAX_CONTENT_LENGTH && j < 2 + |body|
    ensures var k := |FirstLine(|body|)| + j;
      && k < |Frame(body)|
      && ReadHeaders(Frame(body)[..k], None, false)
         == ReadHeaders((CRLF + body)[..j], Some(|body|), true)
      && ReadHeaders((CRLF + body)[..j], Some(|body|), true) ==
         if j == 0 then (BadHeaders(ClosedInHeaders), [])
         else if j == 1 then (Length(|body|), [])
         else (Length(|body|), body[..j - 2])
  {
    hide ReadHeaders, TrimLineEnd, Valid, Decimal;
    var line := FirstLine(|body|);
    assert Frame(body) == line + (CRLF + body);
    assert Frame(body)[..|line| + j] == line + (CRLF + body)[..j];
    ReadFirstLine(|body|, (CRLF + body)[..j]);
    CutAfterFirstLine(body, j);
  }
}
