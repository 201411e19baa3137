/**
  Positions and byte offsets (src/text.rs). The functions here say what each
  conversion means; the loops that compute them are in TextScan, and the table
  that makes them fast is in LineIndex.
 */
module Text {
  import opened Strings

  type u32 = x: int | 0 <= x < 0x1_0000_0000

  datatype Encoding = Utf8 | Utf16 | Utf32

  /** A zero-based line, and a column measured in some encoding's units. */
  datatype Position = Position(line: u32, character: u32)

  predicate Before(p: Position, q: Position) {
    p.line < q.line || (p.line == q.line && p.character <= q.character)
  }

  /** Text the `as u32` casts and `line + 1` can handle without wrapping. */
  predicate Fits(text: Bytes) {
    Valid(text) && |text| < 0xFFFF_FFFF
  }

  function Min(a: nat, b: nat): nat {
    if a < b then a else b
  }

  // ----- columns within one line

  /** The units the character at the front of `s` takes. */
  function CharUnits(s: Bytes, enc: Encoding): (n: nat)
    requires s != []
    ensures 1 <= n <= Width(s)
  {
    match enc
    case Utf8 => Width(s)
    case Utf16 =>
      WidthFourIsSupplementary(s);
      if Scalar(s) >= 0x1_0000 then 2 else 1
    case Utf32 => 1
  }

  /** The units a whole string takes. */
  function Units(s: Bytes, enc: Encoding): (n: nat)
    ensures n <= |s|
    decreases |s|
  {
    if s == [] then 0 else CharUnits(s, enc) + Units(s[Width(s)..], enc)
  }

  /** The byte offset of `column` in `line`; past the end it clamps to the line's length. */
  function ColumnToByte(line: Bytes, column: nat, enc: Encoding): (b: nat)
    ensures b <= |line|
  {
    if enc == Utf8 then Floor(line, Min(column, |line|)) else ScanColumn(line, column, enc)
  }

  /** Walk characters until `column` units have gone by. */
  function ScanColumn(line: Bytes, column: int, enc: Encoding): (b: nat)
    ensures b <= |line|
    decreases |line|
  {
    if line == [] || column <= 0 then 0
    else Width(line) + ScanColumn(line[Width(line)..], column - CharUnits(line, enc), enc)
  }

  /** The column of byte offset `b` of `line`, clamped and floored to a boundary. */
  function ByteToColumn(line: Bytes, b: nat, enc: Encoding): (column: nat)
    ensures column <= |line|
  {
    var end := Floor(line, Min(b, |line|));
    if enc == Utf8 then end else Units(line[..end], enc)
  }

  lemma {:induction false} UnitsOfUtf8(s: Bytes)
    ensures Units(s, Utf8) == |s|
    decreases |s|
  {
    if s != [] {
      UnitsOfUtf8(s[Width(s)..]);
    }
  }

  lemma {:induction false} UnitsConcat(a: Bytes, b: Bytes, enc: Encoding)
    requires Valid(a)
    ensures Units(a + b, enc) == Units(a, enc) + Units(b, enc)
    decreases |a|
  {
    if a == [] {
      assert a + b == b;
    } else {
      UnitsOfFirst(a, enc);
      UnitsOfFirst(a + b, enc);
      FrontOfConcat(a, b, enc);
      hide *;
      UnitsConcat(a[Width(a)..], b, enc);
    }
  }

  lemma UnitsOfFirst(s: Bytes, enc: Encoding)
    requires s != []
    ensures Units(s, enc) == CharUnits(s, enc) + Units(s[Width(s)..], enc)
  {
  }

  /** What follows a text does not change its first character. */
  lemma FrontOfConcat(a: Bytes, b: Bytes, enc: Encoding)
    requires Valid(a) && a != []
    ensures Width(a + b) == Width(a) && CharUnits(a + b, enc) == CharUnits(a, enc)
    ensures (a + b)[Width(a)..] == a[Width(a)..] + b && Valid(a[Width(a)..])
  {
    HeadOfExtension(a, b);
    hide HeadWidth, Scalar;
    DropOfConcat(a, b, Width(a));
  }

  /** On a boundary the column is the number of units before it, in every encoding. */
  lemma ColumnAtBoundary(line: Bytes, b: nat, enc: Encoding)
    requires Valid(line) && b <= |line| && IsBoundary(line, b)
    ensures ByteToColumn(line, b, enc) == Units(line[..b], enc)
  {
    UnitsOfUtf8(line[..b]);
  }

  lemma {:induction false} ScanColumnInverts(line: Bytes, b: nat, enc: Encoding)
    requires Valid(line) && b <= |line| && IsBoundary(line, b)
    ensures ScanColumn(line, Units(line[..b], enc), enc) == b
    decreases |line|
  {
    hide HeadWidth, CharUnits, Valid, IsBoundary;
    if b > 0 {
      BoundaryStep(line);
      UnitsPrefix(line, b, enc);
      ScanColumnInverts(line[Width(line)..], b - Width(line), enc);
    }
  }

  /** Byte to column to byte is the identity on boundaries. */
  lemma ColumnRoundTrip(line: Bytes, b: nat, enc: Encoding)
    requires Valid(line) && b <= |line| && IsBoundary(line, b)
    ensures ColumnToByte(line, Units(line[..b], enc), enc) == b
    ensures ColumnToByte(line, ByteToColumn(line, b, enc), enc) == b
  {
    ColumnAtBoundary(line, b, enc);
    UnitsOfUtf8(line[..b]);
    ScanColumnInverts(line, b, enc);
  }

  /** Any other byte offset counts as the last boundary at or before it. */
  lemma ColumnsAreFloored(line: Bytes, b: nat, enc: Encoding)
    requires Valid(line)
    ensures var r := ColumnToByte(line, ByteToColumn(line, b, enc), enc);
      && r <= Min(b, |line|) && IsBoundary(line, r)
      && (forall c: nat :: r < c <= Min(b, |line|) ==> !IsBoundary(line, c))
  {
    ColumnRoundTrip(line, Floor(line, Min(b, |line|)), enc);
    hide ColumnToByte, Units, Valid, IsBoundary;
  }

  lemma ScanFirst(line: Bytes, column: int, enc: Encoding)
    requires line != [] && column > 0
    ensures ScanColumn(line, column, enc)
      == Width(line) + ScanColumn(line[Width(line)..], column - CharUnits(line, enc), enc)
  {
    hide Width, CharUnits;
  }

  /** `r` is a boundary with at least `column` units before it, unless the line ends there. */
  predicate Reaches(line: Bytes, r: nat, column: int, enc: Encoding) {
    r <= |line| && IsBoundary(line, r) && (r < |line| ==> Units(line[..r], enc) >= column)
  }

  /** The units before `b`, which must lie in the line, are fewer than `column`. */
  predicate FallsShort(line: Bytes, b: nat, column: int, enc: Encoding) {
    b <= |line| && Units(line[..b], enc) < column
  }

  lemma UnitsAfterFirst(line: Bytes, r: nat, enc: Encoding)
    requires line != [] && HeadWidth(line) > 0 && Width(line) + r <= |line|
    ensures Units(line[..Width(line) + r], enc) == CharUnits(line, enc) + Units(line[Width(line)..][..r], enc)
  {
    hide *;
    UnitsPrefix(line, Width(line) + r, enc);
  }

  lemma BoundaryAfterFirst(line: Bytes, w: nat, r: nat)
    requires w + r <= |line| && IsBoundary(line, w)
    ensures IsBoundary(line, w + r) <==> IsBoundary(line[w..], r)
  {
    hide *;
    TailBoundary(line, w, w + r);
  }

  lemma ReachesAfterFirst(line: Bytes, r: nat, column: int, enc: Encoding)
    requires line != [] && HeadWidth(line) > 0 && IsBoundary(line, Width(line))
    requires Reaches(line[Width(line)..], r, column - CharUnits(line, enc), enc)
    ensures Reaches(line, Width(line) + r, column, enc)
  {
    hide HeadWidth, Width, CharUnits, Units, IsBoundary;
    UnitsAfterFirst(line, r, enc);
    BoundaryAfterFirst(line, Width(line), r);
  }

  lemma ShortAfterFirst(line: Bytes, r: nat, column: int, enc: Encoding)
    requires line != [] && HeadWidth(line) > 0
    requires FallsShort(line[Width(line)..], r, column - CharUnits(line, enc), enc)
    ensures FallsShort(line, Width(line) + r, column, enc)
  {
    hide HeadWidth, Width, CharUnits, Units;
    UnitsAfterFirst(line, r, enc);
  }

  lemma ReachesAtOnce(line: Bytes, column: int, enc: Encoding)
    requires line == [] || column <= 0
    ensures ScanColumn(line, column, enc) == 0 && Reaches(line, 0, column, enc)
  {
    NoUnits(line, enc);
  }

  lemma ShortOfMore(line: Bytes, column: int, enc: Encoding)
    requires ScanColumn(line, column, enc) > 0
    ensures line != [] && column > 0 && FallsShort(line, 0, column, enc)
  {
    NoUnits(line, enc);
  }

  /** The scan ends on a boundary, with at least `column` units before it unless the line ends first. */
  lemma {:induction false} ScanLands(line: Bytes, column: int, enc: Encoding)
    requires Valid(line)
    ensures Reaches(line, ScanColumn(line, column, enc), column, enc)
    decreases |line|
  {
    hide *;
    if line == [] || column <= 0 {
      ReachesAtOnce(line, column, enc);
    } else {
      ScanFirst(line, column, enc);
      HeadIsBoundary(line);
      WidthOfHead(line);
      var rest := column - CharUnits(line, enc);
      ScanLands(line[Width(line)..], rest, enc);
      ReachesAfterFirst(line, ScanColumn(line[Width(line)..], rest, enc), column, enc);
    }
  }

  /** Every boundary the scan went past has fewer units before it. */
  lemma {:induction false} ScanPasses(line: Bytes, column: int, b: nat, enc: Encoding)
    requires Valid(line) && b < ScanColumn(line, column, enc) && IsBoundary(line, b)
    ensures FallsShort(line, b, column, enc)
    decreases |line|
  {
    hide *;
    ShortOfMore(line, column, enc);
    if b > 0 {
      ScanFirst(line, column, enc);
      HeadIsBoundary(line);
      WidthOfHead(line);
      NotInsideHead(line, b);
      var w := Width(line);
      TailBoundary(line, w, b);
      ScanPasses(line[w..], column - CharUnits(line, enc), b - w, enc);
      ShortAfterFirst(line, b - w, column, enc);
    }
  }

  lemma NotInsideHead(line: Bytes, b: nat)
    requires line != [] && b > 0 && IsBoundary(line, b)
    ensures b >= HeadWidth(line)
  {
    hide HeadWidth, Valid;
    if b < HeadWidth(line) {
      CutInsideHead(line, b);
    }
  }

  /**
    UTF-16 and UTF-32 columns round up: the result is the first boundary with
    at least `column` units before it, or the end of the line.
   */
  lemma ScanColumnRoundsUp(line: Bytes, column: int, enc: Encoding)
    requires Valid(line)
    ensures var r := ScanColumn(line, column, enc);
      && IsBoundary(line, r)
      && (r < |line| ==> Units(line[..r], enc) >= column)
      && forall b: nat :: b < r && IsBoundary(line, b) ==> Units(line[..b], enc) < column
  {
    hide IsBoundary, Units, Valid, ScanColumn;
    ScanLands(line, column, enc);
    forall b: nat | b < ScanColumn(line, column, enc) && IsBoundary(line, b) ensures Units(line[..b], enc) < column {
      ScanPasses(line, column, b, enc);
    }
  }

  lemma NoUnits(line: Bytes, enc: Encoding)
    ensures Units(line[..0], enc) == 0
  {
  }

  /** Peel the first character off a prefix. */
  lemma UnitsPrefix(line: Bytes, b: nat, enc: Encoding)
    requires line != [] && HeadWidth(line) > 0 && Width(line) <= b <= |line|
    ensures Units(line[..b], enc) == CharUnits(line, enc) + Units(line[Width(line)..][..b - Width(line)], enc)
  {
    HeadOfPrefix(line, b);
    assert line[..b][Width(line)..] == line[Width(line)..][..b - Width(line)];
  }

  /**
    Where a column lands: in UTF-16 and UTF-32 on the first boundary at or past
    the column, in UTF-8 on the last one at or before it, clamped to the line.
   */
  lemma ColumnLands(line: Bytes, column: nat, enc: Encoding)
    requires Valid(line)
    ensures var r := ColumnToByte(line, column, enc);
      && r <= |line| && IsBoundary(line, r)
      && (enc != Utf8 ==>
            && (r < |line| ==> Units(line[..r], enc) >= column)
            && forall b: nat :: b < r && IsBoundary(line, b) ==> Units(line[..b], enc) < column)
      && (enc == Utf8 ==>
            && Units(line[..r], enc) <= column
            && forall b: nat :: r < b <= |line| && IsBoundary(line, b) ==> Units(line[..b], enc) > column)
  {
    if enc == Utf8 {
      forall b: nat | b <= |line| ensures Units(line[..b], enc) == b {
        UnitsOfUtf8(line[..b]);
      }
    } else {
      ScanColumnRoundsUp(line, column, enc);
    }
  }

  lemma {:induction false} ScanColumnMonotone(line: Bytes, c: int, d: int, enc: Encoding)
    requires c <= d
    ensures ScanColumn(line, c, enc) <= ScanColumn(line, d, enc)
    decreases |line|
  {
    if line != [] && c > 0 {
      ScanColumnMonotone(line[Width(line)..], c - CharUnits(line, enc), d - CharUnits(line, enc), enc);
    }
  }

  lemma ColumnMonotone(line: Bytes, c: nat, d: nat, enc: Encoding)
    requires c <= d
    ensures ColumnToByte(line, c, enc) <= ColumnToByte(line, d, enc)
  {
    ScanColumnMonotone(line, c, d, enc);
  }

  // ----- lines

  /** The first line feed at or after `from`, or the end of the text. */
  function NextLf(text: Bytes, from: nat): (r: nat)
    requires from <= |text|
    ensures from <= r <= |text|
    ensures r < |text| ==> text[r] == LF
    ensures forall i :: from <= i < r ==> text[i] != LF
    decreases |text| - from
  {
    if from == |text| || text[from] == LF then from else NextLf(text, from + 1)
  }

  /** How many line feeds stand before offset `k`. */
  function LfCount(text: Bytes, k: nat): (n: nat)
    requires k <= |text|
    ensures n <= k
  {
    if k == 0 then 0 else LfCount(text, k - 1) + (if text[k - 1] == LF then 1 else 0)
  }

  /** The start of the line that offset `k` lies on. */
  function LineStartOf(text: Bytes, k: nat): (r: nat)
    requires k <= |text|
    ensures r <= k
    ensures r == 0 || text[r - 1] == LF
    ensures forall i :: r <= i < k ==> text[i] != LF
  {
    if k == 0 || text[k - 1] == LF then k else LineStartOf(text, k - 1)
  }

  predicate IsLineStart(text: Bytes, k: nat) {
    k <= |text| && (k == 0 || text[k - 1] == LF)
  }

  // ----- positions and offsets

  /**
    The offset of `character` on the line that is `line` lines below the one
    starting at `from`; past the last line, the end of the text.
   */
  function OffsetFrom(text: Bytes, from: nat, line: nat, character: nat, enc: Encoding): (o: nat)
    requires from <= |text|
    ensures from <= o <= |text|
    decreases line
  {
    var eol := NextLf(text, from);
    if line == 0 then from + ColumnToByte(text[from..eol], character, enc)
    else if eol == |text| then |text|
    else OffsetFrom(text, eol + 1, line - 1, character, enc)
  }

  function PositionToOffset(text: Bytes, p: Position, enc: Encoding): (o: nat)
    ensures o <= |text|
  {
    OffsetFrom(text, 0, p.line, p.character, enc)
  }

  function OffsetToPosition(text: Bytes, offset: nat, enc: Encoding): Position
    requires Fits(text)
  {
    var o := Floor(text, Min(offset, |text|));
    var start := LineStartOf(text, o);
    Position(LfCount(text, o), ByteToColumn(text[start..], o - start, enc))
  }

  /** Both ends of every line are character boundaries, so lines are valid text. */
  lemma LineIsText(text: Bytes, from: nat)
    requires Valid(text) && IsLineStart(text, from)
    ensures IsBoundary(text, from) && IsBoundary(text, NextLf(text, from))
    ensures Valid(text[from..NextLf(text, from)]) && Valid(text[from..])
    ensures forall k: nat :: k <= NextLf(text, from) - from ==>
      (IsBoundary(text[from..NextLf(text, from)], k) <==> IsBoundary(text, from + k))
  {
    var eol := NextLf(text, from);
    if from > 0 { LineFeedBoundaries(text, from - 1); }
    if eol < |text| { LineFeedBoundaries(text, eol); }
    SliceValid(text, from, eol);
  }

  lemma {:induction false} OffsetFromLands(text: Bytes, from: nat, line: nat, character: nat, enc: Encoding)
    requires Valid(text) && IsLineStart(text, from)
    ensures IsBoundary(text, OffsetFrom(text, from, line, character, enc))
    decreases line
  {
    hide OffsetFrom, IsBoundary, Valid, HeadWidth, ColumnToByte, NextLf;
    OffsetFromStep(text, from, line, character, enc);
    var eol := NextLf(text, from);
    if line == 0 {
      ColumnLandsOnLine(text, from, character, enc);
    } else if eol < |text| {
      OffsetFromLands(text, eol + 1, line - 1, character, enc);
    } else {
      EndIsBoundary(text);
    }
  }

  lemma EndIsBoundary(text: Bytes)
    ensures IsBoundary(text, |text|)
  {
  }

  lemma ColumnLandsOnLine(text: Bytes, from: nat, character: nat, enc: Encoding)
    requires Valid(text) && IsLineStart(text, from)
    ensures IsBoundary(text, from + ColumnToByte(text[from..NextLf(text, from)], character, enc))
  {
    hide HeadWidth, Valid, IsBoundary, ColumnToByte, NextLf, Units;
    LineIsText(text, from);
    ColumnLands(text[from..NextLf(text, from)], character, enc);
  }

  lemma OffsetFromStep(text: Bytes, from: nat, line: nat, character: nat, enc: Encoding)
    requires from <= |text|
    ensures var eol := NextLf(text, from);
      OffsetFrom(text, from, line, character, enc) ==
        if line == 0 then from + ColumnToByte(text[from..eol], character, enc)
        else if eol == |text| then |text|
        else OffsetFrom(text, eol + 1, line - 1, character, enc)
  {
    hide ColumnToByte, NextLf;
  }

  /** Every position, in range or not, resolves to a character boundary. */
  lemma PositionLandsOnBoundary(text: Bytes, p: Position, enc: Encoding)
    requires Valid(text)
    ensures IsBoundary(text, PositionToOffset(text, p, enc))
  {
    OffsetFromLands(text, 0, p.line, p.character, enc);
  }

  lemma {:induction false} OffsetFromMonotone(
    text: Bytes, from: nat, l1: nat, c1: nat, l2: nat, c2: nat, enc: Encoding)
    requires from <= |text|
    requires l1 < l2 || (l1 == l2 && c1 <= c2)
    ensures OffsetFrom(text, from, l1, c1, enc) <= OffsetFrom(text, from, l2, c2, enc)
    decreases l1
  {
    OffsetFromStep(text, from, l1, c1, enc);
    OffsetFromStep(text, from, l2, c2, enc);
    hide OffsetFrom, ColumnToByte, NextLf;
    var eol := NextLf(text, from);
    if l1 == 0 {
      if l2 == 0 {
        ColumnMonotone(text[from..eol], c1, c2, enc);
      }
    } else if eol < |text| {
      OffsetFromMonotone(text, eol + 1, l1 - 1, c1, l2 - 1, c2, enc);
    }
  }

  /** Offsets grow with positions in (line, character) order. */
  lemma PositionMonotone(text: Bytes, p: Position, q: Position, enc: Encoding)
    requires Before(p, q)
    ensures PositionToOffset(text, p, enc) <= PositionToOffset(text, q, enc)
  {
    OffsetFromMonotone(text, 0, p.line, p.character, q.line, q.character, enc);
  }

  lemma {:induction false} LfCountOfLine(text: Bytes, from: nat, k: nat)
    requires from <= k <= |text| && forall i :: from <= i < k ==> text[i] != LF
    ensures LfCount(text, k) == LfCount(text, from)
    decreases k
  {
    if from < k {
      LfCountOfLine(text, from, k - 1);
    }
  }

  lemma {:induction false} LfCountMonotone(text: Bytes, j: nat, k: nat)
    requires j <= k <= |text|
    ensures LfCount(text, j) <= LfCount(text, k)
    decreases k
  {
    if j < k {
      LfCountMonotone(text, j, k - 1);
    }
  }

  lemma LfCountPastFeed(text: Bytes, eol: nat)
    requires eol < |text| && text[eol] == LF
    ensures LfCount(text, eol + 1) == LfCount(text, eol) + 1
  {
  }

  /** Counting lines forward from any line start reaches the line holding `o`. */
  lemma {:induction false} OffsetFromReachesLine(text: Bytes, from: nat, o: nat, character: nat, enc: Encoding)
    requires IsLineStart(text, from) && from <= o <= |text|
    ensures LfCount(text, o) >= LfCount(text, from)
    ensures LineStartOf(text, o) <= o <= NextLf(text, LineStartOf(text, o))
    ensures OffsetFrom(text, from, LfCount(text, o) - LfCount(text, from), character, enc)
            == OffsetFrom(text, LineStartOf(text, o), 0, character, enc)
    decreases |text| - from
  {
    hide HeadWidth, Valid, ColumnToByte, Units, LfCount, LineStartOf, NextLf;
    var eol := NextLf(text, from);
    var start := LineStartOf(text, o);
    assert forall i :: start <= i < o ==> text[i] != LF;
    LfCountMonotone(text, from, o);
    if o <= eol {
      assert start == from;
      LfCountOfLine(text, from, o);
    } else {
      LfCountOfLine(text, from, eol);
      LfCountPastFeed(text, eol);
      LfCountMonotone(text, eol + 1, o);
      OffsetFromReachesLine(text, eol + 1, o, character, enc);
    }
  }

  /** The position of a boundary is its line and the units before it on that line. */
  lemma PositionOfBoundary(text: Bytes, o: nat, enc: Encoding)
    requires Fits(text) && o <= |text| && IsBoundary(text, o)
    ensures var start := LineStartOf(text, o);
      OffsetToPosition(text, o, enc) == Position(LfCount(text, o), Units(text[start..o], enc))
  {
    hide HeadWidth, Valid, ColumnToByte, Units, LfCount, LineStartOf, ByteToColumn, NextLf;
    var start := LineStartOf(text, o);
    LineIsText(text, start);
    RestOfText(text, start, o);
    ColumnAtBoundary(text[start..], o - start, enc);
    assert text[start..][..o - start] == text[start..o];
  }

  lemma RestOfText(text: Bytes, start: nat, o: nat)
    requires Valid(text) && start <= o <= |text| && IsBoundary(text, start) && IsBoundary(text, o)
    ensures Valid(text[start..]) && IsBoundary(text[start..], o - start) && Floor(text, o) == o
  {
    hide HeadWidth, Valid;
    SliceValid(text, start, |text|);
    assert text[start..|text|] == text[start..];
  }

  /** Offset to position to offset is the identity on character boundaries. */
  lemma OffsetRoundTrip(text: Bytes, o: nat, enc: Encoding)
    requires Fits(text) && o <= |text| && IsBoundary(text, o)
    ensures PositionToOffset(text, OffsetToPosition(text, o, enc), enc) == o
  {
    hide HeadWidth, Valid, ColumnToByte, Units, LfCount, LineStartOf, NextLf, Floor, IsBoundary;
    var start := LineStartOf(text, o);
    PositionOfBoundary(text, o, enc);
    var p := OffsetToPosition(text, o, enc);
    OffsetFromReachesLine(text, 0, o, p.character, enc);
    var eol := NextLf(text, start);
    LineIsText(text, start);
    var line := text[start..eol];
    assert IsBoundary(line, o - start);
    ColumnRoundTrip(line, o - start, enc);
    assert line[..o - start] == text[start..o];
  }

  lemma {:induction false} OffsetStaysOnLine(text: Bytes, from: nat, line: nat, character: nat, enc: Encoding)
    requires from <= |text|
    ensures var o := OffsetFrom(text, from, line, character, enc);
      if LfCount(text, from) + line <= LfCount(text, |text|) then LfCount(text, o) == LfCount(text, from) + line
      else o == |text|
    decreases line
  {
    hide ColumnToByte;
    var eol := NextLf(text, from);
    LfCountOfLine(text, from, eol);
    if line == 0 {
      LfCountMonotone(text, from, |text|);
      LfCountOfLine(text, from, OffsetFrom(text, from, 0, character, enc));
    } else if eol < |text| {
      OffsetStaysOnLine(text, eol + 1, line - 1, character, enc);
    }
  }

  /**
    A position on a line the text has never leaves it, however large its
    character; past the last line it is the end of the text.
   */
  lemma PositionStaysOnItsLine(text: Bytes, p: Position, enc: Encoding)
    ensures var o := PositionToOffset(text, p, enc);
      if p.line <= LfCount(text, |text|) then LfCount(text, o) == p.line else o == |text|
  {
    OffsetStaysOnLine(text, 0, p.line, p.character, enc);
  }

  /** Any other offset counts as the last boundary at or before it, and one past the end as the end. */
  lemma OffsetsAreFloored(text: Bytes, offset: nat, enc: Encoding)
    requires Fits(text)
    ensures var o := PositionToOffset(text, OffsetToPosition(text, offset, enc), enc);
      && o <= Min(offset, |text|) && IsBoundary(text, o)
      && (forall b: nat :: o < b <= Min(offset, |text|) ==> !IsBoundary(text, b))
      && OffsetToPosition(text, offset, enc) == OffsetToPosition(text, o, enc)
  {
    OffsetRoundTrip(text, Floor(text, Min(offset, |text|)), enc);
    hide PositionToOffset, Valid, IsBoundary, ByteToColumn, LfCount, LineStartOf;
  }

  lemma {:induction false} LinesOfSharedPrefix(s: Bytes, t: Bytes, k: nat)
    requires k <= |s| && k <= |t| && s[..k] == t[..k]
    ensures LfCount(s, k) == LfCount(t, k) && LineStartOf(s, k) == LineStartOf(t, k)
    decreases k
  {
    if k > 0 {
      assert s[..k][k - 1] == s[k - 1] == t[k - 1];
      assert s[..k - 1] == s[..k][..k - 1] && t[..k - 1] == t[..k][..k - 1];
      LinesOfSharedPrefix(s, t, k - 1);
    }
  }

  /** A boundary's position depends only on the text before it. */
  lemma PositionOfSharedPrefix(s: Bytes, t: Bytes, k: nat, enc: Encoding)
    requires Fits(s) && Fits(t)
    requires k <= |s| && k <= |t| && s[..k] == t[..k]
    requires IsBoundary(s, k) && IsBoundary(t, k)
    ensures OffsetToPosition(s, k, enc) == OffsetToPosition(t, k, enc)
  {
    LinesOfSharedPrefix(s, t, k);
    PositionOfBoundary(s, k, enc);
    PositionOfBoundary(t, k, enc);
    var start := LineStartOf(s, k);
    assert s[start..k] == s[..k][start..] == t[..k][start..] == t[start..k];
  }
}
