/**
  What a position means in two texts that share a beginning (src/text.rs:43-57):
  up to the end of the shared part it means the same, and only a position past
  the text it was clamped to can move when that text is extended.
 */
module StablePositions {
  import opened Strings
  import opened Text

  // ----- a position in a beginning of the text

  lemma ScanFirstOfConcat(s: Bytes, t: Bytes, column: int, enc: Encoding)
    requires Valid(s) && s != [] && column > 0
    ensures Valid(s[Width(s)..])
    ensures var w := Width(s); var rest := column - CharUnits(s, enc);
      && ScanColumn(s, column, enc) == w + ScanColumn(s[w..], rest, enc)
      && ScanColumn(s + t, column, enc) == w + ScanColumn(s[w..] + t, rest, enc)
  {
    hide *;
    FrontOfConcat(s, t, enc);
    ScanFirst(s, column, enc);
    ScanFirst(s + t, column, enc);
  }

  lemma NothingToScan(s: Bytes, column: int, enc: Encoding)
    requires s == [] || column <= 0
    ensures ScanColumn(s, column, enc) == 0
  {
  }

  lemma {:induction false} ScanInPrefix(s: Bytes, t: Bytes, column: int, enc: Encoding)
    requires Valid(s)
    ensures ScanColumn(s, column, enc) == Min(ScanColumn(s + t, column, enc), |s|)
    decreases |s|
  {
    hide Width, CharUnits, Valid, HeadWidth, ScanColumn;
    if s == [] {
      NothingToScan(s, column, enc);
    } else if column <= 0 {
      NothingToScan(s, column, enc);
      NothingToScan(s + t, column, enc);
    } else {
      ScanFirstOfConcat(s, t, column, enc);
      ScanInPrefix(s[Width(s)..], t, column - CharUnits(s, enc), enc);
    }
  }

  lemma FloorInPrefix(s: Bytes, t: Bytes, i: nat)
    requires Valid(t) && i <= |s + t|
    ensures Floor(s, Min(i, |s|)) == Min(Floor(s + t, i), |s|)
  {
    assert IsBoundary(s + t, |s|) by {
      if t != [] { assert (s + t)[|s|] == t[0]; }
    }
    assert forall b: nat :: b < |s| ==> (IsBoundary(s + t, b) <==> IsBoundary(s, b));
    hide Valid, IsBoundary;
    if i >= |s| {
      assert IsBoundary(s, |s|) by { WholeIsBoundary(s); }
    }
  }

  lemma WholeIsBoundary(s: Bytes)
    ensures IsBoundary(s, |s|)
  {
  }

  lemma ColumnInPrefix(s: Bytes, t: Bytes, column: nat, enc: Encoding)
    requires Valid(s) && Valid(t)
    ensures ColumnToByte(s, column, enc) == Min(ColumnToByte(s + t, column, enc), |s|)
  {
    hide Valid;
    if enc == Utf8 {
      FloorInPrefix(s, t, Min(column, |s + t|));
    } else {
      ScanInPrefix(s, t, column, enc);
    }
    hide Floor, ScanColumn;
  }

  lemma {:induction false} FeedInPrefix(s: Bytes, t: Bytes, from: nat)
    requires from <= |s|
    ensures NextLf(s, from) == Min(NextLf(s + t, from), |s|)
    decreases |s| - from
  {
    if from < |s| && s[from] != LF {
      FeedInPrefix(s, t, from + 1);
    }
  }

  /** The rest of the last line of `s`, as it goes on in `s + t`. */
  lemma LineGoesOn(s: Bytes, t: Bytes, from: nat)
    requires Valid(s) && Valid(t) && IsLineStart(s, from) && NextLf(s, from) == |s|
    ensures var eol := NextLf(s + t, from);
      && |s| <= eol <= |s + t| && (s + t)[from..eol] == s[from..] + t[..eol - |s|]
      && Valid(s[from..]) && Valid(t[..eol - |s|])
  {
    hide Valid, NextLf, IsBoundary;
    var eol := NextLf(s + t, from);
    FeedInPrefix(s, t, from);
    LineIsText(s, from);
    var k := eol - |s|;
    if k < |t| {
      assert t[k] == (s + t)[eol] == LF;
      LineFeedBoundaries(t, k);
      BoundaryIsValidCut(t, k);
    } else {
      assert t[..k] == t;
    }
    SliceOfConcat(s, t, from, eol);
  }

  lemma SliceOfConcat(s: Bytes, t: Bytes, from: nat, eol: nat)
    requires from <= |s| <= eol <= |s + t|
    ensures (s + t)[from..eol] == s[from..] + t[..eol - |s|]
  {
  }

  lemma SliceInPrefix(s: Bytes, t: Bytes, from: nat, to: nat)
    requires from <= to <= |s|
    ensures (s + t)[from..to] == s[from..to]
  {
  }

  /** On one line the column means the same, as far as the prefix goes. */
  lemma LineInPrefix(s: Bytes, t: Bytes, from: nat, character: nat, enc: Encoding)
    requires Valid(s) && Valid(t) && IsLineStart(s, from)
    ensures var eol := NextLf(s, from); var on := NextLf(s + t, from);
      from + ColumnToByte(s[from..eol], character, enc)
      == Min(from + ColumnToByte((s + t)[from..on], character, enc), |s|)
  {
    hide Valid, NextLf, ColumnToByte, IsBoundary, HeadWidth;
    FeedInPrefix(s, t, from);
    var eol := NextLf(s, from);
    if eol < |s| {
      SliceInPrefix(s, t, from, eol);
    } else {
      LineGoesOn(s, t, from);
      hide IsLineStart;
      assert s[from..eol] == s[from..];
      ColumnInPrefix(s[from..], t[..NextLf(s + t, from) - |s|], character, enc);
    }
  }

  lemma {:induction false} OffsetInPrefix(
    s: Bytes, t: Bytes, from: nat, line: nat, character: nat, enc: Encoding)
    requires Valid(s) && Valid(t) && IsLineStart(s, from)
    ensures OffsetFrom(s, from, line, character, enc) == Min(OffsetFrom(s + t, from, line, character, enc), |s|)
    decreases line
  {
    hide Valid, NextLf, ColumnToByte, IsBoundary, HeadWidth;
    if line == 0 {
      LineInPrefix(s, t, from, character, enc);
    } else {
      FeedInPrefix(s, t, from);
      if NextLf(s, from) < |s| {
        OffsetInPrefix(s, t, NextLf(s, from) + 1, line - 1, character, enc);
      }
    }
  }

  /** A position in a beginning of the text is its offset in the text, clamped. */
  lemma PositionInPrefix(text: Bytes, k: nat, p: Position, enc: Encoding)
    requires Valid(text) && k <= |text| && IsBoundary(text, k)
    ensures PositionToOffset(text[..k], p, enc) == Min(PositionToOffset(text, p, enc), k)
  {
    BoundaryIsValidCut(text, k);
    TakeDrop(text, k);
    hide Valid, IsBoundary, OffsetFrom;
    OffsetInPrefix(text[..k], text[k..], 0, p.line, p.character, enc);
  }

  lemma TakeDrop(text: Bytes, k: nat)
    requires k <= |text|
    ensures text[..k] + text[k..] == text
  {
  }

  // ----- a position in two texts

  /** The texts are the same up to the boundary `k`. */
  predicate Shared(a: Bytes, b: Bytes, k: nat) {
    k <= |a| && k <= |b| && a[..k] == b[..k] && Valid(a) && Valid(b) && IsBoundary(a, k) && IsBoundary(b, k)
  }

  /** Up to where they are the same, texts agree on every position. */
  lemma SharedPosition(a: Bytes, b: Bytes, k: nat, p: Position, enc: Encoding)
    requires Shared(a, b, k)
    ensures Min(PositionToOffset(a, p, enc), k) == Min(PositionToOffset(b, p, enc), k)
  {
    PositionInPrefix(a, k, p, enc);
    PositionInPrefix(b, k, p, enc);
    hide *;
  }

  /** The position lies past the one its offset has: clamped to its line or to the text, or rounded down. */
  predicate Past(text: Bytes, p: Position, enc: Encoding)
    requires Fits(text)
  {
    !Before(p, OffsetToPosition(text, PositionToOffset(text, p, enc), enc))
  }

  /** A position whose offset is where the shared part ends stays there, unless it is past it. */
  lemma StaysUnlessPast(a: Bytes, b: Bytes, k: nat, p: Position, enc: Encoding)
    requires Fits(a) && Fits(b) && Shared(a, b, k)
    requires PositionToOffset(a, p, enc) == k && !Past(a, p, enc)
    ensures PositionToOffset(b, p, enc) == k
  {
    var canonical := OffsetToPosition(a, k, enc);
    SharedPosition(a, b, k, p, enc);
    PositionOfSharedPrefix(a, b, k, enc);
    OffsetRoundTrip(b, k, enc);
    PositionMonotone(b, p, canonical, enc);
    hide *;
  }

  /** What to put after the shared part to move a position that is past it. */
  function Mover(text: Bytes, p: Position, enc: Encoding): byte
    requires Fits(text)
  {
    if p.line > OffsetToPosition(text, PositionToOffset(text, p, enc), enc).line then LF else 0x78
  }

  /** And one that is past it does move, once the right byte follows. */
  lemma PastMoves(a: Bytes, b: Bytes, p: Position, enc: Encoding)
    requires Fits(a) && Fits(b)
    requires var k := PositionToOffset(a, p, enc);
      Shared(a, b, k) && Past(a, p, enc) && k < |b| && b[k] == Mover(a, p, enc)
    ensures PositionToOffset(b, p, enc) > PositionToOffset(a, p, enc)
  {
    var k := PositionToOffset(a, p, enc);
    NextPosition(b, k, enc);
    PositionOfSharedPrefix(a, b, k, enc);
    OffsetRoundTrip(b, k + 1, enc);
    var next := OffsetToPosition(b, k + 1, enc);
    assert Before(next, p);
    PositionMonotone(b, next, p, enc);
  }

  /** One ASCII byte further: a line feed starts the next line, another byte is one more column. */
  lemma NextPosition(b: Bytes, k: nat, enc: Encoding)
    requires Fits(b) && k < |b| && IsBoundary(b, k) && (b[k] == LF || b[k] == 0x78)
    ensures IsBoundary(b, k + 1)
    ensures var at := OffsetToPosition(b, k, enc); var next := OffsetToPosition(b, k + 1, enc);
      if b[k] == LF then next.line == at.line + 1 && next.character == 0
      else next.line == at.line && next.character == at.character + 1
  {
    assert b[k] < 0x80;
    AsciiIsOne(b, k, enc);
    LineOfNext(b, k);
    ColumnOfNext(b, k, enc);
    hide *;
    PositionOfBoundary(b, k, enc);
    PositionOfBoundary(b, k + 1, enc);
  }

  lemma ColumnOfNext(b: Bytes, k: nat, enc: Encoding)
    requires Fits(b) && k < |b| && IsBoundary(b, k) && Units([b[k]], enc) == 1
    ensures Units(b[LineStartOf(b, k + 1)..k + 1], enc)
      == if b[k] == LF then 0 else Units(b[LineStartOf(b, k)..k], enc) + 1
  {
    LineOfNext(b, k);
    hide Units, LineStartOf, Valid, IsBoundary, LfCount;
    if b[k] == LF {
      NoUnitsAt(b, k + 1, enc);
    } else {
      UnitsOfNext(b, LineStartOf(b, k), k, enc);
    }
  }

  lemma NoUnitsAt(b: Bytes, k: nat, enc: Encoding)
    requires k <= |b|
    ensures Units(b[k..k], enc) == 0
  {
  }

  lemma LineOfNext(b: Bytes, k: nat)
    requires k < |b|
    ensures LfCount(b, k + 1) == LfCount(b, k) + (if b[k] == LF then 1 else 0)
    ensures LineStartOf(b, k + 1) == (if b[k] == LF then k + 1 else LineStartOf(b, k))
    ensures IsLineStart(b, LineStartOf(b, k))
  {
  }

  lemma AsciiIsOne(b: Bytes, k: nat, enc: Encoding)
    requires Fits(b) && k < |b| && IsBoundary(b, k) && b[k] < 0x80
    ensures IsBoundary(b, k + 1) && Units([b[k]], enc) == 1
  {
    BoundaryIsValidCut(b, k);
    var rest := b[k..];
    assert HeadWidth(rest) == 1;
    assert Valid(rest[1..]);
    if k + 1 < |b| {
      assert rest[1..][0] == b[k + 1];
    }
    assert [b[k]][1..] == [];
  }

  lemma UnitsOfNext(b: Bytes, start: nat, k: nat, enc: Encoding)
    requires Fits(b) && IsLineStart(b, start) && start <= k < |b| && IsBoundary(b, k) && Units([b[k]], enc) == 1
    ensures Units(b[start..k + 1], enc) == Units(b[start..k], enc) + 1
  {
    LineIsText(b, start);
    SliceValid(b, start, k);
    hide *;
    UnitsConcat(b[start..k], [b[k]], enc);
    SliceSnoc(b, start, k);
  }

  lemma SliceSnoc(b: Bytes, start: nat, k: nat)
    requires start <= k < |b|
    ensures b[start..k + 1] == b[start..k] + [b[k]]
  {
  }
}
