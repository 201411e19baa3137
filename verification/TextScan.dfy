/**
  The scanning loops of src/text.rs, each proved to compute the function of
  module Text that says what it means. Characters are taken one at a time, as
  `char_indices` yields them, and compared by scalar value.
 */
module TextScan {
  import opened Strings
  import opened Text

  method FloorCharBoundary(s: Bytes, index: nat) returns (r: nat)
    ensures r == Floor(s, Min(index, |s|))
  {
    if index >= |s| {
      return |s|;
    }
    r := index;
    while r > 0 && !IsBoundary(s, r)
      invariant r <= index && Floor(s, r) == Floor(s, index)
    {
      r := r - 1;
    }
  }

  method Utf16ColumnToByte(line: Bytes, column: u32) returns (offset: nat)
    requires Fits(line)
    ensures offset == ColumnToByte(line, column, Utf16)
  {
    hide HeadWidth, Scalar, ScanColumn, Valid;
    assert line[0..] == line;
    var col: u32 := 0;
    offset := 0;
    while offset < |line|
      invariant offset <= |line| && Valid(line[offset..])
      invariant col <= offset
      invariant ScanColumn(line, column, Utf16) == offset + ScanColumn(line[offset..], column - col, Utf16)
    {
      if col >= column {
        ScanStops(line[offset..], column - col, Utf16);
        return;
      }
      ScanStep(line, offset, column - col, Utf16);
      var rest := line[offset..];
      col := col + (if Scalar(rest) >= 0x1_0000 then 2 else 1);
      offset := offset + Width(rest);
    }
    ScanStops(line[offset..], column - col, Utf16);
    return |line|;
  }

  /** What one more character does to the column scan. */
  lemma ScanStep(line: Bytes, at: nat, column: int, enc: Encoding)
    requires at < |line| && Valid(line[at..]) && column > 0
    ensures var rest := line[at..]; var next := at + Width(rest);
      && next <= |line| && Valid(line[next..])
      && ScanColumn(rest, column, enc)
         == Width(rest) + ScanColumn(line[next..], column - CharUnits(rest, enc), enc)
      && (enc == Utf16 ==> CharUnits(rest, enc) == if Scalar(rest) >= 0x1_0000 then 2 else 1)
      && (enc == Utf32 ==> CharUnits(rest, enc) == 1)
  {
    hide HeadWidth, Scalar, IsBoundary;
    var rest := line[at..];
    BoundaryStep(rest);
    assert rest[Width(rest)..] == line[at + Width(rest)..];
  }

  lemma ScanStops(rest: Bytes, column: int, enc: Encoding)
    requires rest == [] || column <= 0
    ensures ScanColumn(rest, column, enc) == 0
  {
  }

  method Utf32ColumnToByte(line: Bytes, column: u32) returns (offset: nat)
    requires Fits(line)
    ensures offset == ColumnToByte(line, column, Utf32)
  {
    hide HeadWidth, Scalar, ScanColumn, Valid;
    assert line[0..] == line;
    var col: u32 := 0;
    offset := 0;
    while offset < |line|
      invariant offset <= |line| && Valid(line[offset..])
      invariant col <= offset
      invariant ScanColumn(line, column, Utf32) == offset + ScanColumn(line[offset..], column - col, Utf32)
    {
      if col >= column {
        ScanStops(line[offset..], column - col, Utf32);
        return;
      }
      ScanStep(line, offset, column - col, Utf32);
      var rest := line[offset..];
      col := col + 1;
      offset := offset + Width(rest);
    }
    ScanStops(line[offset..], column - col, Utf32);
    return |line|;
  }

  method Utf8ColumnToByte(line: Bytes, column: u32) returns (offset: nat)
    ensures offset == ColumnToByte(line, column, Utf8)
  {
    offset := FloorCharBoundary(line, Min(column, |line|));
  }

  method ByteToUtf8Column(line: Bytes, b: nat) returns (column: u32)
    requires Fits(line)
    ensures column == ByteToColumn(line, b, Utf8)
  {
    column := FloorCharBoundary(line, Min(b, |line|));
  }

  /** The units of the characters before `b`, added up one character at a time. */
  method ByteToUtf16Column(line: Bytes, b: nat) returns (column: u32)
    requires Fits(line)
    ensures column == ByteToColumn(line, b, Utf16)
  {
    var end := FloorCharBoundary(line, Min(b, |line|));
    column := SumUnits(line[..end], Utf16);
  }

  method ByteToUtf32Column(line: Bytes, b: nat) returns (column: u32)
    requires Fits(line)
    ensures column == ByteToColumn(line, b, Utf32)
  {
    var end := FloorCharBoundary(line, Min(b, |line|));
    column := SumUnits(line[..end], Utf32);
  }

  method SumUnits(s: Bytes, enc: Encoding) returns (sum: u32)
    requires |s| < 0xFFFF_FFFF
    ensures sum == Units(s, enc)
  {
    hide HeadWidth, CharUnits;
    sum := 0;
    var at := 0;
    while at < |s|
      invariant at <= |s| && sum <= at
      invariant Units(s, enc) == sum + Units(s[at..], enc)
    {
      var rest := s[at..];
      assert rest[Width(rest)..] == s[at + Width(rest)..];
      sum := sum + CharUnits(rest, enc);
      at := at + Width(rest);
    }
  }

  method ColumnToByteWith(line: Bytes, column: u32, enc: Encoding) returns (offset: nat)
    requires Fits(line)
    ensures offset == ColumnToByte(line, column, enc)
  {
    match enc
    case Utf8 => offset := Utf8ColumnToByte(line, column);
    case Utf16 => offset := Utf16ColumnToByte(line, column);
    case Utf32 => offset := Utf32ColumnToByte(line, column);
  }

  method ByteToColumnWith(line: Bytes, b: nat, enc: Encoding) returns (column: u32)
    requires Fits(line)
    ensures column == ByteToColumn(line, b, enc)
  {
    match enc
    case Utf8 => column := ByteToUtf8Column(line, b);
    case Utf16 => column := ByteToUtf16Column(line, b);
    case Utf32 => column := ByteToUtf32Column(line, b);
  }

  /** The scan over `split('\n')`: one pass down the lines until the right one. */
  method PositionToOffsetWith(text: Bytes, p: Position, enc: Encoding) returns (offset: nat)
    requires Fits(text)
    ensures offset == PositionToOffset(text, p, enc)
  {
    hide Valid, HeadWidth, IsBoundary, ColumnToByte, NextLf;
    var lineStart, index := 0, 0;
    while true
      invariant IsLineStart(text, lineStart) && index <= lineStart && index <= p.line
      invariant PositionToOffset(text, p, enc) == OffsetFrom(text, lineStart, p.line - index, p.character, enc)
      decreases |text| - lineStart
    {
      var eol := NextLf(text, lineStart);
      LineIsText(text, lineStart);
      if index as u32 == p.line {
        var column := ColumnToByteWith(text[lineStart..eol], p.character, enc);
        return lineStart + column;
      }
      if eol == |text| {
        return |text|;
      }
      lineStart, index := eol + 1, index + 1;
    }
  }

  method OffsetToPositionWith(text: Bytes, offset: nat, enc: Encoding) returns (p: Position)
    requires Fits(text)
    ensures p == OffsetToPosition(text, offset, enc)
  {
    ScanStart(text, Min(offset, |text|));
    ScanEnd(text, offset, enc);
    hide *;
    var o := FloorCharBoundary(text, Min(offset, |text|));
    var line, lineStart := CountLines(text, o);
    var character := ByteToColumnWith(text[lineStart..], o - lineStart, enc);
    p := Position(line, character);
  }

  /** The scan over `char_indices`: the line feeds before `o`, and where the last of them ends. */
  method CountLines(text: Bytes, o: nat) returns (line: u32, lineStart: nat)
    requires Fits(text) && o <= |text| && IsBoundary(text, o)
    ensures line == LfCount(text, o) && lineStart == LineStartOf(text, o)
  {
    ScanStart(text, o);
    assert Counted(text, o, 0, 0, 0);
    hide *;
    line, lineStart := 0, 0;
    var index := 0;
    while index < |text|
      invariant Counted(text, o, index, line, lineStart)
    {
      CountStep(text, o, index, line, lineStart);
      if index >= o {
        break;
      }
      var rest := text[index..];
      if Scalar(rest) == 10 {
        line, lineStart := line + 1, index + 1;
      }
      index := index + Width(rest);
    }
    CountEnd(text, o, index, line, lineStart);
  }

  /** The scan stands at the character boundary `index`, with the lines before it counted. */
  ghost predicate Counted(text: Bytes, o: nat, index: nat, line: u32, lineStart: nat) {
    && index <= o <= |text| < 0xFFFF_FFFF && IsBoundary(text, index) && Valid(text[index..])
    && line == LfCount(text, index) && lineStart == LineStartOf(text, index)
  }

  lemma CountStep(text: Bytes, o: nat, index: nat, line: u32, lineStart: nat)
    requires Fits(text) && o <= |text| && IsBoundary(text, o) && index < |text|
    requires Counted(text, o, index, line, lineStart)
    ensures index < o ==>
      var rest := text[index..];
      && rest != [] && line as int + 1 < 0x1_0000_0000
      && (if Scalar(rest) == 10 then Counted(text, o, index + Width(rest), line + 1, index + 1)
          else Counted(text, o, index + Width(rest), line, lineStart))
  {
    if index < o {
      CharStep(text, index, o);
    }
    hide Scalar, Width, IsBoundary, Valid, LfCount, LineStartOf;
  }

  lemma CountEnd(text: Bytes, o: nat, index: nat, line: u32, lineStart: nat)
    requires Counted(text, o, index, line, lineStart) && (index >= |text| || index >= o)
    ensures line == LfCount(text, o) && lineStart == LineStartOf(text, o)
  {
    hide IsBoundary, Valid, LfCount, LineStartOf;
  }

  lemma ScanStart(text: Bytes, k: nat)
    requires Fits(text) && k <= |text|
    ensures k == Min(k, |text|) && IsBoundary(text, Floor(text, k))
    ensures IsBoundary(text, 0) && text[0..] == text && Valid(text)
    ensures |text| < 0xFFFF_FFFF && LfCount(text, 0) == 0 && LineStartOf(text, 0) == 0
  {
  }

  lemma ScanEnd(text: Bytes, offset: nat, enc: Encoding)
    requires Fits(text)
    ensures var o := Floor(text, Min(offset, |text|)); var start := LineStartOf(text, o);
      && start <= o && IsLineStart(text, start) && Min(o, |text|) == o
      && Fits(text[start..])
      && OffsetToPosition(text, offset, enc)
         == Position(LfCount(text, o), ByteToColumn(text[start..], o - start, enc))
  {
    hide ByteToColumn, HeadWidth;
    LineIsText(text, LineStartOf(text, Floor(text, Min(offset, |text|))));
  }

  /** One character further: the line count and line start move only past a line feed. */
  lemma CharStep(text: Bytes, index: nat, o: nat)
    requires Valid(text) && index < o <= |text| && IsBoundary(text, o)
    requires IsBoundary(text, index) && Valid(text[index..])
    ensures var w := Width(text[index..]);
      index + w <= o && IsBoundary(text, index + w) && Valid(text[index + w..])
    ensures var w := Width(text[index..]); Scalar(text[index..]) == 10 ==>
      LfCount(text, index + w) == LfCount(text, index) + 1 && LineStartOf(text, index + w) == index + 1
    ensures var w := Width(text[index..]); Scalar(text[index..]) != 10 ==>
      LfCount(text, index + w) == LfCount(text, index) && LineStartOf(text, index + w) == LineStartOf(text, index)
  {
    NextBoundary(text, index, o);
    FeedOnlyFirst(text, index);
    hide Scalar, Width, IsBoundary, Valid, LfCount, LineStartOf;
    if Scalar(text[index..]) == 10 {
      PastFeed(text, index);
    } else {
      SkipNonFeeds(text, index, index + Width(text[index..]));
    }
  }

  /** A line feed is a character of its own, and in no other character. */
  lemma FeedOnlyFirst(text: Bytes, index: nat)
    requires index < |text| && HeadWidth(text[index..]) > 0
    ensures var w := Width(text[index..]);
      && (Scalar(text[index..]) == 10 <==> text[index] == LF) && (text[index] == LF ==> w == 1)
      && forall k :: index < k < index + w ==> text[k] != LF
  {
    hide Scalar, HeadWidth;
    var rest := text[index..];
    LineFeedIsOneByte(rest);
    assert forall k :: index < k < index + Width(rest) ==> rest[k - index] == text[k];
  }

  lemma PastFeed(text: Bytes, index: nat)
    requires index < |text| && text[index] == LF
    ensures LfCount(text, index + 1) == LfCount(text, index) + 1 && LineStartOf(text, index + 1) == index + 1
  {
  }

  /** The character at one boundary ends at the next. */
  lemma NextBoundary(text: Bytes, index: nat, o: nat)
    requires Valid(text) && index < o <= |text| && IsBoundary(text, o)
    requires IsBoundary(text, index) && Valid(text[index..])
    ensures var w := Width(text[index..]);
      && index + w <= o && IsBoundary(text, index + w) && Valid(text[index + w..])
      && HeadWidth(text[index..]) > 0
  {
    hide Scalar, HeadWidth;
    var rest := text[index..];
    var w := Width(rest);
    BoundaryStep(rest);
    assert IsBoundary(rest, o - index);
    assert rest[w..] == text[index + w..];
    assert IsBoundary(rest, w);
  }

  lemma {:induction false} SkipNonFeeds(text: Bytes, i: nat, j: nat)
    requires i <= j <= |text| && forall k :: i <= k < j ==> text[k] != LF
    ensures LfCount(text, j) == LfCount(text, i) && LineStartOf(text, j) == LineStartOf(text, i)
  {
    if i < j {
      SkipNonFeeds(text, i, j - 1);
    }
  }
}
