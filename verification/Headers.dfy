/**
  Header blocks as any client may write them (src/transport.rs:52-104): which
  numbers are lengths, what is trimmed, which lines count, and the verdict of a
  whole block, exact to the limit.
 */
module Headers {
  import opened Strings
  import opened Ascii
  import opened Wrappers
  import opened Frames

  // ----- which byte strings are numbers

  function Zeros(k: nat): (s: Bytes)
    ensures |s| == k && forall i :: 0 <= i < k ==> s[i] == 0x30
  {
    if k == 0 then [] else Zeros(k - 1) + [0x30]
  }

  /** Without the one plus sign a number may begin with. */
  function Unsigned(s: Bytes): Bytes {
    if |s| > 1 && s[0] == 0x2B then s[1..] else s
  }

  lemma {:induction false} ZerosAdd(k: nat, d: Bytes)
    requires AllDigits(d)
    ensures AllDigits(Zeros(k) + d) && DigitsValue(Zeros(k) + d) == DigitsValue(d)
    decreases |d|
  {
    if d == [] {
      assert Zeros(k) + d == Zeros(k);
      ZerosAreNothing(k);
    } else {
      var n := |d| - 1;
      ZerosAdd(k, d[..n]);
      assert (Zeros(k) + d)[..k + n] == Zeros(k) + d[..n];
    }
  }

  lemma {:induction false} ZerosAreNothing(k: nat)
    ensures DigitsValue(Zeros(k)) == 0
  {
    if k > 0 {
      ZerosAreNothing(k - 1);
      assert Zeros(k)[..k - 1] == Zeros(k - 1);
    }
  }

  /** Every digit string is the decimal digits of its value after some zeros. */
  lemma {:induction false} DigitsAreDecimal(d: Bytes) returns (k: nat)
    requires AllDigits(d) && d != []
    ensures d == Zeros(k) + Decimal(DigitsValue(d))
    decreases |d|
  {
    var n := |d| - 1;
    var c := d[n];
    assert IsDigit(c);
    if n == 0 {
      k := 0;
      assert d[..0] == [] && DigitsValue(d) == c - 0x30;
    } else {
      var j := DigitsAreDecimal(d[..n]);
      var v := DigitsValue(d[..n]);
      assert DigitsValue(d) == v * 10 + (c - 0x30);
      Snoc(d);
      DecimalOfMore(v, c);
      hide DigitsValue, Decimal;
      if v == 0 {
        k := j + 1;
      } else {
        k := j;
        Join3(Zeros(j), Decimal(v), [c]);
      }
    }
  }

  lemma DecimalOfMore(v: nat, c: byte)
    requires IsDigit(c)
    ensures v == 0 ==> Decimal(v) == [0x30] && Decimal(v * 10 + (c - 0x30)) == [c]
    ensures v > 0 ==> Decimal(v * 10 + (c - 0x30)) == Decimal(v) + [c]
  {
    assert (v * 10 + (c - 0x30)) / 10 == v && (v * 10 + (c - 0x30)) % 10 == c - 0x30;
  }

  /**
    A length is exactly the decimal digits of a 64-bit number, after any zeros and
    at most one plus sign; everything else is refused.
   */
  lemma ParsesExactlyNumbers(s: Bytes, n: nat)
    ensures ParseUsize(s) == Some(n) <==>
      n < 0x1_0000_0000_0000_0000 && exists k :: Unsigned(s) == Zeros(k) + Decimal(n)
  {
    var digits := Unsigned(s);
    if ParseUsize(s) == Some(n) {
      var k := DigitsAreDecimal(digits);
      assert Unsigned(s) == Zeros(k) + Decimal(n);
    }
    if k :| digits == Zeros(k) + Decimal(n) {
      ZerosAdd(k, Decimal(n));
      DecimalValue(n);
    }
  }

  // ----- what trimming takes away

  /** The 25 characters with the Unicode property White_Space. */
  const WHITE_SPACE: seq<nat> := [
    0x9, 0xA, 0xB, 0xC, 0xD, 0x20, 0x85, 0xA0, 0x1680,
    0x2000, 0x2001, 0x2002, 0x2003, 0x2004, 0x2005, 0x2006, 0x2007, 0x2008, 0x2009, 0x200A,
    0x2028, 0x2029, 0x202F, 0x205F, 0x3000]

  lemma WhiteIsWhiteSpace(scalar: nat)
    ensures |WHITE_SPACE| == 25 && (White(scalar) <==> scalar in WHITE_SPACE)
  {
    if White(scalar) && 0x2000 <= scalar <= 0x200A {
      assert WHITE_SPACE[9 + (scalar - 0x2000)] == scalar;
    } else if White(scalar) && scalar <= 13 {
      assert WHITE_SPACE[scalar - 9] == scalar;
    } else if White(scalar) {
      assert scalar == WHITE_SPACE[5] || scalar == WHITE_SPACE[6] || scalar == WHITE_SPACE[7] || scalar == WHITE_SPACE[8]
        || scalar == WHITE_SPACE[20] || scalar == WHITE_SPACE[21] || scalar == WHITE_SPACE[22]
        || scalar == WHITE_SPACE[23] || scalar == WHITE_SPACE[24];
    }
  }

  predicate AllWhite(s: Bytes)
    decreases |s|
  {
    s == [] || (White(Scalar(s)) && AllWhite(s[Width(s)..]))
  }

  /** The last character is there and is no white space. */
  predicate EndsInInk(s: Bytes)
    decreases |s|
  {
    s != [] && if s[Width(s)..] == [] then !White(Scalar(s)) else EndsInInk(s[Width(s)..])
  }

  lemma NothingIsWhite()
    ensures AllWhite([]) && Valid([])
  {
  }

  lemma Split(s: Bytes, w: nat)
    requires w <= |s|
    ensures s == s[..w] + s[w..] && s == [] + s
  {
  }

  lemma Join3(a: Bytes, b: Bytes, c: Bytes)
    ensures a + (b + c) == a + b + c
  {
  }

  /** A text that begins with the first character of `s` has that character, whatever follows. */
  lemma FrontChar(s: Bytes, rest: Bytes)
    requires Valid(s) && s != [] && Valid(rest)
    ensures Width(s) == HeadWidth(s)
    ensures var t := s[..Width(s)] + rest;
      t != [] && Valid(t) && Width(t) == Width(s) && Scalar(t) == Scalar(s) && t[Width(s)..] == rest
  {
    var w := HeadWidth(s);
    var t := s[..w] + rest;
    HeadIsBoundary(s);
    HeadOfPrefix(s, w);
    HeadOfExtension(s[..w], rest);
    hide *;
    WidthOfHead(s);
    WidthOfHead(t);
    assert t[w..] == rest;
    ValidByHead(t);
  }

  lemma WhiteInFront(s: Bytes, rest: Bytes)
    requires Valid(s) && s != [] && White(Scalar(s)) && Valid(rest) && AllWhite(rest)
    ensures var front := s[..Width(s)] + rest; AllWhite(front) && Valid(front)
  {
    FrontChar(s, rest);
    hide White, Scalar, Valid, Width;
  }

  lemma TrimStartStep(s: Bytes)
    requires Valid(s) && s != []
    ensures TrimStart(s) == if White(Scalar(s)) then TrimStart(s[Width(s)..]) else s
    ensures Valid(s[Width(s)..])
  {
    HeadIsBoundary(s);
    WidthOfHead(s);
    hide HeadWidth, Valid, White, Scalar;
  }

  lemma {:induction false} TrimStartTakes(s: Bytes) returns (front: Bytes)
    requires Valid(s)
    ensures s == front + TrimStart(s) && AllWhite(front) && Valid(front) && Valid(TrimStart(s))
    ensures TrimStart(s) != [] ==> !White(Scalar(TrimStart(s)))
    decreases |s|
  {
    hide *;
    NothingIsWhite();
    TrimsNothing();
    front := [];
    Split(s, 0);
    if s != [] {
      TrimStartStep(s);
      if White(Scalar(s)) {
        var w := Width(s);
        var rest := TrimStartTakes(s[w..]);
        front := s[..w] + rest;
        WhiteInFront(s, rest);
        Split(s, w);
        Join3(s[..w], rest, TrimStart(s[w..]));
      }
    }
  }

  lemma TrimEndStep(s: Bytes)
    requires Valid(s) && s != []
    ensures Valid(s[Width(s)..])
    ensures var rest := TrimEnd(s[Width(s)..]);
      TrimEnd(s) == if rest == [] && White(Scalar(s)) then [] else s[..Width(s)] + rest
  {
    HeadIsBoundary(s);
    WidthOfHead(s);
    hide HeadWidth, Valid, White, Scalar;
  }

  lemma TrimsNothing()
    ensures TrimStart([]) == TrimEnd([]) == []
  {
  }

  lemma AllWhiteStep(s: Bytes)
    requires s != []
    ensures AllWhite(s) <==> White(Scalar(s)) && AllWhite(s[Width(s)..])
    ensures EndsInInk(s) <==> if s[Width(s)..] == [] then !White(Scalar(s)) else EndsInInk(s[Width(s)..])
  {
    hide White, Scalar, Width;
  }

  lemma {:induction false} TrimEndTakes(s: Bytes) returns (back: Bytes)
    requires Valid(s)
    ensures s == TrimEnd(s) + back && AllWhite(back) && Valid(TrimEnd(s))
    ensures TrimEnd(s) != [] ==> EndsInInk(TrimEnd(s)) && Scalar(TrimEnd(s)) == Scalar(s)
    decreases |s|
  {
    hide *;
    NothingIsWhite();
    TrimsNothing();
    back := [];
    if s != [] {
      TrimEndStep(s);
      var w := Width(s);
      back := TrimEndTakes(s[w..]);
      var rest := TrimEnd(s[w..]);
      Split(s, w);
      if rest == [] && White(Scalar(s)) {
        Split(back, 0);
        AllWhiteStep(s);
        back := s;
      } else {
        FrontChar(s, rest);
        AllWhiteStep(s[..w] + rest);
        Join3(s[..w], rest, back);
      }
    }
  }

  /**
    Trimming takes white space from both ends and nothing else, and leaves none
    there.
   */
  lemma TrimTakesWhiteSpace(s: Bytes) returns (front: Bytes, back: Bytes)
    requires Valid(s)
    ensures s == front + Trim(s) + back && AllWhite(front) && AllWhite(back)
    ensures Trim(s) != [] ==> !White(Scalar(Trim(s))) && EndsInInk(Trim(s))
  {
    TrimIs(s);
    hide *;
    front := TrimStartTakes(s);
    back := TrimEndTakes(TrimStart(s));
    Join3(front, Trim(s), back);
    InkHasNoEnd(s);
  }

  lemma TrimIs(s: Bytes)
    ensures Trim(s) == TrimEnd(TrimStart(s))
  {
  }

  lemma InkHasNoEnd(s: Bytes)
    requires Valid(s)
    ensures TrimEnd(TrimStart(s)) != [] ==> TrimStart(s) != []
  {
    hide TrimStart;
  }

  // ----- one header line

  /** A line's text: valid, not empty, and without its line end. */
  predicate LineText(line: Bytes) {
    Valid(line) && line != [] && LF !in line && line[|line| - 1] != CR
  }

  /** A line feed after any number of carriage returns. */
  predicate LineEnd(eol: Bytes) {
    eol != [] && eol[|eol| - 1] == LF && forall i :: 0 <= i < |eol| - 1 ==> eol[i] == CR
  }

  lemma LineIsCut(line: Bytes, eol: Bytes, tail: Bytes)
    requires LF !in line && LineEnd(eol)
    ensures var s := line + eol + tail; var n := |line + eol|;
      s != [] && LineLength(s) == n && s[..n] == line + eol && s[n..] == tail
  {
    var s := line + eol + tail;
    var n := |line + eol|;
    assert s[n - 1] == LF;
    forall i | 0 <= i < n - 1 ensures s[i] != LF {
      if i < |line| {
        assert s[i] == line[i];
      }
    }
    assert IndexOf(s, LF) == n - 1;
  }

  lemma LineIsValid(line: Bytes, eol: Bytes)
    requires LineText(line) && LineEnd(eol)
    ensures Valid(line + eol) && TrimLineEnd(line + eol) == line
  {
    AsciiValid(eol);
    ValidConcat(line, eol);
    hide Valid;
    TrimLineEndOf(line, eol);
  }

  lemma HeadersStep(s: Bytes, length: Option<nat>, saw: bool)
    requires s != []
    ensures var line := s[..LineLength(s)]; var rest := s[LineLength(s)..];
      ReadHeaders(s, length, saw) ==
        if !Valid(line) then (BadHeaders(NotUtf8), rest)
        else if TrimLineEnd(line) == [] then (Finish(length), rest)
        else match HeaderLine(TrimLineEnd(line), length)
          case Err(e) => (BadHeaders(e), rest)
          case Ok(next) => ReadHeaders(rest, next, true)
  {
    hide Valid, TrimLineEnd, HeaderLine, Finish, LineLength;
  }

  /** A line is read whole, ended by a line feed with or without a carriage return. */
  lemma ReadsOneLine(line: Bytes, eol: Bytes, tail: Bytes, length: Option<nat>, saw: bool)
    requires LineText(line) && LineEnd(eol)
    ensures ReadHeaders(line + eol + tail, length, saw) ==
      match HeaderLine(line, length)
      case Err(e) => (BadHeaders(e), tail)
      case Ok(next) => ReadHeaders(tail, next, true)
  {
    LineIsCut(line, eol, tail);
    LineIsValid(line, eol);
    hide *;
    HeadersStep(line + eol + tail, length, saw);
  }

  /** A line that the stream ends in counts as a line, and then the block lacks its end. */
  lemma LastLineIsRead(line: Bytes, ending: Bytes, length: Option<nat>, saw: bool)
    requires LineText(line) && forall i :: 0 <= i < |ending| ==> ending[i] == CR
    ensures ReadHeaders(line + ending, length, saw) ==
      match HeaderLine(line, length)
      case Err(e) => (BadHeaders(e), [])
      case Ok(_) => (BadHeaders(ClosedInHeaders), [])
  {
    var s := line + ending;
    AsciiValid(ending);
    ValidConcat(line, ending);
    TrimLineEndOf(line, ending);
    hide Valid, HeaderLine, TrimLineEnd;
    forall i | 0 <= i < |s| ensures s[i] != LF {
      if i < |line| {
        assert s[i] == line[i];
      }
    }
    assert LineLength(s) == |s| && s[..|s|] == s && s[|s|..] == [];
    HeadersStep(s, length, saw);
    assert forall next :: ReadHeaders([], next, true) == (BadHeaders(ClosedInHeaders), []);
    hide ReadHeaders;
  }

  /** A line that is not UTF-8 fails the block. */
  lemma RefusesBadText(line: Bytes, eol: Bytes, tail: Bytes, length: Option<nat>, saw: bool)
    requires LF !in line && LineEnd(eol) && !Valid(line + eol)
    ensures ReadHeaders(line + eol + tail, length, saw) == (BadHeaders(NotUtf8), tail)
  {
    LineIsCut(line, eol, tail);
    hide *;
    HeadersStep(line + eol + tail, length, saw);
  }

  /** A line without a colon is no header. */
  lemma ColonIsNeeded(line: Bytes, length: Option<nat>)
    requires COLON !in line
    ensures HeaderLine(line, length) == Err(MalformedHeader)
  {
    hide Trim, LowerAll, ParseUsize;
    assert IndexOf(line, COLON) == |line|;
  }

  /** An empty line ends the block, with or without a carriage return. */
  lemma EndsBlock(eol: Bytes, tail: Bytes, length: Option<nat>, saw: bool)
    requires LineEnd(eol)
    ensures ReadHeaders(eol + tail, length, saw) == (Finish(length), tail)
  {
    LineIsCut([], eol, tail);
    AsciiValid(eol);
    TrimLineEndOf([], eol);
    assert [] + eol == eol;
    hide *;
    HeadersStep(eol + tail, length, saw);
  }

  // ----- whole blocks

  datatype Field = Field(name: Bytes, value: Bytes)

  predicate FieldFits(f: Field) {
    COLON !in f.name && LineText(f.name + [COLON] + f.value)
  }

  /** A field names the content length, in any case and with any white space around it. */
  predicate NamesLength(f: Field) {
    LowerAll(Trim(f.name)) == CONTENT_LENGTH
  }

  function Block(fields: seq<Field>): Bytes {
    if fields == [] then [] else fields[0].name + [COLON] + fields[0].value + CRLF + Block(fields[1..])
  }

  /** The length the fields announce: the last that names it counts, and each that does must be a number. */
  function Announced(fields: seq<Field>): Result<Option<nat>, FrameError> {
    if fields == [] then Ok(None)
    else
      var last := fields[|fields| - 1];
      match Announced(fields[..|fields| - 1])
      case Err(e) => Err(e)
      case Ok(length) =>
        if !NamesLength(last) then Ok(length)
        else match ParseUsize(Trim(last.value))
          case None => Err(InvalidLength)
          case Some(n) => Ok(Some(n))
  }

  lemma FieldIsRead(f: Field, tail: Bytes, length: Option<nat>, saw: bool)
    requires FieldFits(f)
    ensures ReadHeaders(f.name + [COLON] + f.value + CRLF + tail, length, saw) ==
      if !NamesLength(f) then ReadHeaders(tail, length, true)
      else match ParseUsize(Trim(f.value))
        case None => (BadHeaders(InvalidLength), tail)
        case Some(n) => ReadHeaders(tail, Some(n), true)
  {
    HeaderSplits(f.name, f.value, length);
    hide ReadHeaders, HeaderLine, Trim, ParseUsize, LowerAll;
    ReadsOneLine(f.name + [COLON] + f.value, CRLF, tail, length, saw);
  }

  lemma {:induction false} BlockConcat(a: seq<Field>, b: seq<Field>)
    ensures Block(a + b) == Block(a) + Block(b)
    decreases |a|
  {
    if a == [] {
      assert a + b == b;
    } else {
      BlockConcat(a[1..], b);
      assert (a + b)[1..] == a[1..] + b;
    }
  }

  lemma OneField(f: Field)
    ensures Block([f]) == f.name + [COLON] + f.value + CRLF
  {
    assert [f][1..] == [] && Block([]) == [];
  }

  /** The fields are read one after another, keeping the length announced so far. */
  lemma {:induction false} FieldsAreRead(fields: seq<Field>, tail: Bytes)
    requires forall i :: 0 <= i < |fields| ==> FieldFits(fields[i])
    ensures match Announced(fields)
      case Ok(length) => ReadHeaders(Block(fields) + tail, None, false) == ReadHeaders(tail, length, fields != [])
      case Err(e) => ReadHeaders(Block(fields) + tail, None, false).0 == BadHeaders(e)
    decreases |fields|
  {
    if fields == [] {
      assert Block(fields) + tail == tail;
    } else {
      var n := |fields| - 1;
      var last := fields[n];
      assert FieldFits(last);
      hide FieldFits, NamesLength, ReadHeaders, ParseUsize, Trim;
      LastField(fields, tail);
      FieldsAreRead(fields[..n], Block([last]) + tail);
      OneField(last);
      hide Block;
      if Announced(fields[..n]).Ok? {
        FieldIsRead(last, tail, Announced(fields[..n]).value, fields[..n] != []);
      }
    }
  }

  lemma LastField(fields: seq<Field>, tail: Bytes)
    requires fields != []
    ensures var n := |fields| - 1; Block(fields) + tail == Block(fields[..n]) + (Block([fields[n]]) + tail)
  {
    hide *;
    var n := |fields| - 1;
    Snoc(fields);
    BlockConcat(fields[..n], [fields[n]]);
    Join3(Block(fields[..n]), Block([fields[n]]), tail);
  }

  lemma Snoc<T>(s: seq<T>)
    requires s != []
    ensures s[..|s| - 1] + [s[|s| - 1]] == s
  {
  }

  lemma CrlfEndsLine()
    ensures LineEnd(CRLF)
  {
  }

  /**
    What a whole header block comes to, whatever fields it has and in whatever
    order: refused for the first length that is no number, for having none, or for
    one past 256 MiB; else the body is as many bytes as the last one said.
   */
  lemma BlockDecides(fields: seq<Field>, tail: Bytes)
    requires forall i :: 0 <= i < |fields| ==> FieldFits(fields[i])
    ensures var read := ReadFrame(Block(fields) + CRLF + tail).0;
      match Announced(fields)
      case Err(e) => read == Failure(e)
      case Ok(None) => read == Failure(MissingLength)
      case Ok(Some(n)) =>
        if n > 268_435_456 then read == Failure(TooLong)
        else if |tail| < n then read == Failure(ClosedMidMessage)
        else read == Body(tail[..n])
  {
    hide ReadHeaders, Block, Announced, FieldFits, LineEnd, NamesLength, ParseUsize, Trim;
    FieldsAreRead(fields, CRLF + tail);
    Join3(Block(fields), CRLF, tail);
    assert LineEnd(CRLF) by { CrlfEndsLine(); }
    if Announced(fields).Ok? {
      EndsBlock(CRLF, tail, Announced(fields).value, fields != []);
    }
  }
}
