/**
  `LineIndex` (src/text.rs): a table of line starts that replaces the linear
  scans by a binary search, and the proof that it computes the same conversions.
 */
module LineIndex {
  import opened Strings
  import opened Text
  import opened Wrappers

  datatype LineIndex = LineIndex(lineStarts: seq<nat>, len: nat) {

    /** The table's entry for `line`, if it has one. */
    function LineStart(line: nat): Option<nat> {
      if line < |lineStarts| then Some(lineStarts[line]) else None
    }

    /** Where `line`, which must exist, ends: before its line feed or at the end of the text. */
    function LineEnd(line: nat): int {
      match LineStart(line + 1)
      case Some(next) => next - 1
      case None => len
    }

    function PositionToOffset(text: Bytes, p: Position, enc: Encoding): (o: nat)
      requires this == New(text)
      ensures o <= |text|
    {
      TableRows(text);
      match LineStart(p.line)
      case None => len
      case Some(start) => start + ColumnToByte(text[start..LineEnd(p.line)], p.character, enc)
    }

    function OffsetToPosition(text: Bytes, offset: nat, enc: Encoding): Position
      requires Fits(text) && this == New(text)
    {
      TableRows(text);
      var o := Floor(text, Min(offset, len));
      var line := PartitionPoint(lineStarts, o, 0, |lineStarts|) - 1;
      var start := lineStarts[line];
      Position(line, ByteToColumn(text[start..], o - start, enc))
    }

    /** As every table built for a text is, whatever text it is then used with. */
    predicate Proper() {
      && 0 < |lineStarts| <= 0xFFFF_FFFF && lineStarts[0] == 0
      && forall i, j :: 0 <= i < j < |lineStarts| ==> lineStarts[i] < lineStarts[j]
    }

    /** The lookup against any text; None where cutting the line out of the text panics. */
    function OffsetIn(text: Bytes, p: Position, enc: Encoding): Option<nat> {
      match LineStart(p.line)
      case None => Some(len)
      case Some(start) =>
        var end := LineEnd(p.line);
        if start <= end <= |text| && IsBoundary(text, start) && IsBoundary(text, end) then
          Some(start + ColumnToByte(text[start..end], p.character, enc))
        else None
    }

    function PositionIn(text: Bytes, offset: nat, enc: Encoding): Option<Position>
      requires Proper() && Fits(text)
    {
      var o := Floor(text, Min(Min(offset, len), |text|));
      var line := PartitionPoint(lineStarts, o, 0, |lineStarts|) - 1;
      var start := lineStarts[line];
      if IsBoundary(text, start) then Some(Position(line, ByteToColumn(text[start..], o - start, enc))) else None
    }
  }

  /** Offsets just after each line feed at or past byte `i`, found by scanning bytes. */
  function AfterLineFeeds(text: Bytes, i: nat): seq<nat>
    requires i <= |text|
    decreases |text| - i
  {
    if i == |text| then []
    else if text[i] == LF then [i + 1] + AfterLineFeeds(text, i + 1)
    else AfterLineFeeds(text, i + 1)
  }

  function New(text: Bytes): LineIndex {
    LineIndex([0] + AfterLineFeeds(text, 0), |text|)
  }

  /** The number of leading elements that are at most `bound`, by bisection of `starts[lo..hi]`. */
  function PartitionPoint(starts: seq<nat>, bound: nat, lo: nat, hi: nat): (n: nat)
    requires lo <= hi <= |starts|
    requires forall i, j :: 0 <= i < j < |starts| ==> starts[i] < starts[j]
    requires forall i :: 0 <= i < lo ==> starts[i] <= bound
    requires forall i :: hi <= i < |starts| ==> starts[i] > bound
    ensures lo <= n <= hi
    ensures forall i :: 0 <= i < n ==> starts[i] <= bound
    ensures forall i :: n <= i < |starts| ==> starts[i] > bound
    decreases hi - lo
  {
    if lo == hi then lo
    else
      var mid := (lo + hi) / 2;
      if starts[mid] <= bound then PartitionPoint(starts, bound, mid + 1, hi)
      else PartitionPoint(starts, bound, lo, mid)
  }

  // ----- what the table holds

  lemma FirstEntry(text: Bytes, i: nat)
    requires i < |text|
    ensures AfterLineFeeds(text, i) ==
      if text[i] == LF then [i + 1] + AfterLineFeeds(text, i + 1) else AfterLineFeeds(text, i + 1)
  {
  }

  /** Each entry found past `i` follows a line feed, and numbers its line. */
  lemma {:induction false} EntriesPast(text: Bytes, i: nat)
    requires i <= |text|
    ensures var a := AfterLineFeeds(text, i);
      && |a| == LfCount(text, |text|) - LfCount(text, i)
      && (forall k :: 0 <= k < |a| ==>
            i < a[k] <= |text| && text[a[k] - 1] == LF && LfCount(text, a[k]) == LfCount(text, i) + k + 1)
      && (forall j, k :: 0 <= j < k < |a| ==> a[j] < a[k])
    decreases |text| - i
  {
    if i < |text| {
      EntriesPast(text, i + 1);
      var rest := AfterLineFeeds(text, i + 1);
      var a := AfterLineFeeds(text, i);
      hide AfterLineFeeds;
      if text[i] == LF {
        assert a == [i + 1] + rest by { FirstEntry(text, i); }
        assert forall k :: 1 <= k < |a| ==> a[k] == rest[k - 1];
      } else {
        assert a == rest by { FirstEntry(text, i); }
      }
    }
  }

  /**
    The table starts at 0, is strictly increasing (as the binary search needs),
    stays inside the text, and its k-th entry is the start of line k.
   */
  lemma TableRows(text: Bytes)
    ensures var t := New(text).lineStarts;
      && |t| == LfCount(text, |text|) + 1 && t[0] == 0
      && (forall k :: 0 <= k < |t| ==> IsLineStart(text, t[k]) && LfCount(text, t[k]) == k)
      && (forall j, k :: 0 <= j < k < |t| ==> t[j] < t[k])
  {
    EntriesPast(text, 0);
    var a := AfterLineFeeds(text, 0);
    var t := New(text).lineStarts;
    assert forall k :: 1 <= k < |t| ==> t[k] == a[k - 1];
  }

  lemma {:induction false} NextEntry(text: Bytes, from: nat)
    requires from <= |text|
    ensures var eol := NextLf(text, from);
      AfterLineFeeds(text, from) == if eol == |text| then [] else [eol + 1] + AfterLineFeeds(text, eol + 1)
    decreases |text| - from
  {
    if from < |text| {
      FirstEntry(text, from);
      hide AfterLineFeeds;
      if text[from] != LF {
        NextEntry(text, from + 1);
      }
    }
  }

  /** The scan from `from` reads the rows of the table that starts there. */
  lemma {:induction false} ScanReadsTable(text: Bytes, from: nat, line: nat, character: nat, enc: Encoding)
    requires from <= |text|
    ensures var t := LineIndex([from] + AfterLineFeeds(text, from), |text|);
      match t.LineStart(line)
      case None => OffsetFrom(text, from, line, character, enc) == |text|
      case Some(start) =>
        && start <= t.LineEnd(line) <= |text|
        && OffsetFrom(text, from, line, character, enc)
           == start + ColumnToByte(text[start..t.LineEnd(line)], character, enc)
    decreases line
  {
    hide ColumnToByte, NextLf, AfterLineFeeds;
    NextEntry(text, from);
    var eol := NextLf(text, from);
    var t := LineIndex([from] + AfterLineFeeds(text, from), |text|);
    if line > 0 && eol < |text| {
      ScanReadsTable(text, eol + 1, line - 1, character, enc);
      var u := LineIndex([eol + 1] + AfterLineFeeds(text, eol + 1), |text|);
      assert t.lineStarts == [from] + u.lineStarts;
      assert t.LineStart(line) == u.LineStart(line - 1) && t.LineEnd(line) == u.LineEnd(line - 1);
    }
  }

  /** Position to offset through the table is the linear scan's answer, clamping included. */
  lemma IndexAgreesOnOffsets(text: Bytes, p: Position, enc: Encoding)
    ensures New(text).PositionToOffset(text, p, enc) == Text.PositionToOffset(text, p, enc)
  {
    ScanReadsTable(text, 0, p.line, p.character, enc);
  }

  /** The row the binary search picks is the line the offset lies on. */
  lemma SearchFindsLine(text: Bytes, o: nat)
    requires o <= |text|
    ensures var t := New(text).lineStarts;
      && |t| > LfCount(text, o) && t[LfCount(text, o)] == LineStartOf(text, o)
      && (forall k :: 0 <= k < |t| ==> (t[k] <= o <==> k <= LfCount(text, o)))
  {
    TableRows(text);
    var t := New(text).lineStarts;
    var n := LfCount(text, o);
    LfCountMonotone(text, o, |text|);
    forall k | 0 <= k < |t| ensures t[k] <= o <==> k <= n {
      if t[k] <= o {
        LfCountMonotone(text, t[k], o);
      } else {
        LfCountMonotone(text, o, t[k] - 1);
      }
    }
    var start := LineStartOf(text, o);
    LfCountOfLine(text, start, o);
    assert t[n] == start;
  }

  /** Offset to position through the table is the linear scan's answer. */
  lemma IndexAgreesOnPositions(text: Bytes, offset: nat, enc: Encoding)
    requires Fits(text)
    ensures New(text).OffsetToPosition(text, offset, enc) == Text.OffsetToPosition(text, offset, enc)
  {
    SearchStops(text, Floor(text, Min(offset, |text|)));
    hide LfCount, LineStartOf, ByteToColumn, PartitionPoint;
  }

  lemma SearchStops(text: Bytes, o: nat)
    requires o <= |text|
    ensures var t := New(text).lineStarts; var line := LfCount(text, o);
      && (forall i, j :: 0 <= i < j < |t| ==> t[i] < t[j])
      && line < |t| && PartitionPoint(t, o, 0, |t|) == line + 1 && t[line] == LineStartOf(text, o)
  {
    TableRows(text);
    SearchFindsLine(text, o);
    hide LfCount, LineStartOf, New;
    var t := New(text).lineStarts;
    var n := PartitionPoint(t, o, 0, |t|);
    var line := LfCount(text, o);
    assert t[line] <= o && line < n && t[n - 1] <= o;
  }

  // ----- a table used with another text

  lemma NewIsProper(text: Bytes)
    requires |text| < 0xFFFF_FFFF
    ensures New(text).Proper()
  {
    TableRows(text);
  }

  /** With its own text the table never panics, and gives the linear scans' answers. */
  lemma OwnOffset(text: Bytes, p: Position, enc: Encoding)
    requires Fits(text)
    ensures New(text).OffsetIn(text, p, enc) == Some(Text.PositionToOffset(text, p, enc))
  {
    OwnLineIsCut(text, p.line);
    IndexAgreesOnOffsets(text, p, enc);
    hide Text.PositionToOffset, ColumnToByte, IsBoundary, Valid, AfterLineFeeds;
  }

  lemma OwnPosition(text: Bytes, offset: nat, enc: Encoding)
    requires Fits(text)
    ensures New(text).Proper() && New(text).len == |text|
    ensures New(text).PositionIn(text, offset, enc) == Some(Text.OffsetToPosition(text, offset, enc))
  {
    LengthIsKept(text);
    hide New, Text.OffsetToPosition, ByteToColumn, Floor, PartitionPoint, IsBoundary, Valid;
    NewIsProper(text);
    StartIsCut(text, Floor(text, Min(offset, |text|)));
    IndexAgreesOnPositions(text, offset, enc);
  }

  lemma OwnLineIsCut(text: Bytes, line: nat)
    requires Valid(text)
    ensures var t := New(text); t.LineStart(line).Some? ==>
      && t.LineStart(line).value <= t.LineEnd(line) <= |text|
      && IsBoundary(text, t.LineStart(line).value) && IsBoundary(text, t.LineEnd(line))
  {
    LengthIsKept(text);
    hide New, Valid, IsBoundary;
    RowsAreStarts(text, line);
    RowsAreStarts(text, line + 1);
    EndIsBoundary(text);
  }

  lemma LengthIsKept(text: Bytes)
    ensures New(text).len == |text|
  {
  }

  /** Line `k` of the table begins on a boundary, after the boundary before the line feed that ends line `k - 1`. */
  lemma RowsAreStarts(text: Bytes, k: nat)
    requires Valid(text)
    ensures var t := New(text).lineStarts; k < |t| ==>
      && t[k] <= |text| && IsBoundary(text, t[k])
      && (k > 0 ==> t[k - 1] < t[k] && IsBoundary(text, t[k] - 1))
  {
    TableRows(text);
    hide New, Valid, IsBoundary, LfCount;
    if k < |New(text).lineStarts| {
      LineStartIsBoundary(text, New(text).lineStarts[k]);
    }
  }

  lemma StartIsCut(text: Bytes, o: nat)
    requires Valid(text) && o <= |text|
    requires New(text).Proper()
    ensures var t := New(text); IsBoundary(text, t.lineStarts[PartitionPoint(t.lineStarts, o, 0, |t.lineStarts|) - 1])
  {
    hide New, Valid, IsBoundary, PartitionPoint;
    var t := New(text).lineStarts;
    assert t[0] <= o;
    RowsAreStarts(text, PartitionPoint(t, o, 0, |t|) - 1);
  }

  lemma LineStartIsBoundary(text: Bytes, k: nat)
    requires Valid(text) && IsLineStart(text, k)
    ensures k <= |text| && IsBoundary(text, k) && (k > 0 ==> IsBoundary(text, k - 1))
  {
    if k > 0 {
      LineFeedBoundaries(text, k - 1);
    }
    hide Valid, IsBoundary;
  }

  lemma EndIsBoundary(text: Bytes)
    ensures IsBoundary(text, |text|)
  {
  }

  // ----- when two texts have the same table

  /** The same length, and line feeds in the same places. */
  predicate SameLines(a: Bytes, b: Bytes) {
    |a| == |b| && forall i :: 0 <= i < |a| ==> (a[i] == LF <==> b[i] == LF)
  }

  lemma {:induction false} EntriesAreFeeds(text: Bytes, from: nat, i: nat)
    requires from <= |text|
    ensures i + 1 in AfterLineFeeds(text, from) <==> from <= i < |text| && text[i] == LF
    decreases |text| - from
  {
    if from < |text| {
      EntriesAreFeeds(text, from + 1, i);
    }
  }

  lemma {:induction false} SameEntries(a: Bytes, b: Bytes, from: nat)
    requires SameLines(a, b) && from <= |a|
    ensures AfterLineFeeds(a, from) == AfterLineFeeds(b, from)
    decreases |a| - from
  {
    if from < |a| {
      SameEntries(a, b, from + 1);
    }
  }

  /** Two texts have the same table exactly when they have the same lines. */
  lemma SameTable(a: Bytes, b: Bytes)
    ensures New(a) == New(b) <==> SameLines(a, b)
  {
    if SameLines(a, b) {
      SameEntries(a, b, 0);
    }
    if New(a) == New(b) {
      assert AfterLineFeeds(a, 0) == New(a).lineStarts[1..] == AfterLineFeeds(b, 0);
      forall i | 0 <= i < |a| ensures a[i] == LF <==> b[i] == LF {
        EntriesAreFeeds(a, 0, i);
        EntriesAreFeeds(b, 0, i);
      }
    }
  }
}
