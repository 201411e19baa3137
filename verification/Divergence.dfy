/**
  Stability is exactly what a batch needs to agree with its sequence of changes
  (src/text.rs:184-222, src/documents.rs:143-166): where an edit that touches the
  next one has a position past its offset, some new texts make the two differ.
 */
module Divergence {
  import opened Strings
  import opened Text
  import opened Wrappers
  import opened Edits
  import opened StablePositions
  import opened SequentialEdits
  import Documents
  import Sorting

  // ----- two texts that have come apart

  /** The same up to `k`, the first no longer than the second, and not the same. */
  predicate Diverged(text: Bytes, s: Bytes, b: Bytes, k: nat) {
    Shared(text, s, k) && Shared(text, b, k) && |s| <= |b| && s != b
  }

  /** Where an edit of the original resolves in a text that shares the beginning up to `k`: there, or past `k`. */
  lemma ResolvesFrom(text: Bytes, s: Bytes, k: nat, r: Resolved, edits: seq<TextEdit>, enc: Encoding)
    requires Shared(text, s, k) && ResolvedIn(text, r, edits, enc) && r.start <= r.end <= k
    ensures var range := edits[r.order].range;
      var start := PositionToOffset(s, range.start, enc); var end := PositionToOffset(s, range.end, enc);
      && (if r.start < k then start == r.start else start >= k) && IsBoundary(s, start)
      && (if r.end < k then end == r.end else end >= k) && IsBoundary(s, end)
  {
    var range := edits[r.order].range;
    SharedPosition(text, s, k, range.start, enc);
    SharedPosition(text, s, k, range.end, enc);
    PositionLandsOnBoundary(s, range.start, enc);
    PositionLandsOnBoundary(s, range.end, enc);
    hide PositionToOffset, IsBoundary, Valid;
  }

  /** Deleting at least as much from the shorter text keeps the two apart. */
  lemma DeletionKeepsApart(text: Bytes, s: Bytes, b: Bytes, k: nat, r: Resolved, start: nat, end: nat)
    requires Diverged(text, s, b, k) && r.start <= r.end <= k
    requires IsBoundary(text, r.start) && IsBoundary(text, r.end)
    requires start <= end <= |s| && IsBoundary(s, start) && IsBoundary(s, end)
    requires if r.start < k then start == r.start else start >= k
    requires if r.end < k then end == r.end else end >= k
    ensures Diverged(text, Patch(s, start, end, []), Patch(b, r.start, r.end, []), r.start)
  {
    SharedBoundary(text, b, k, r.start);
    SharedBoundary(text, b, k, r.end);
    NothingIsValid();
    PatchShares(text, s, k, r.start, start, end, []);
    PatchShares(text, b, k, r.start, r.start, r.end, []);
    hide Valid, IsBoundary;
    if |Patch(s, start, end, [])| == |Patch(b, r.start, r.end, [])| {
      SameDeletion(text, s, b, k, r, start, end);
    }
  }

  lemma NothingIsValid()
    ensures Valid([])
  {
  }

  /** Where both delete equally much, they delete the same of the shared part, or nothing. */
  lemma SameDeletion(text: Bytes, s: Bytes, b: Bytes, k: nat, r: Resolved, start: nat, end: nat)
    requires Diverged(text, s, b, k) && r.start <= r.end <= k && start <= end <= |s|
    requires if r.start < k then start == r.start else start >= k
    requires if r.end < k then end == r.end else end >= k
    requires |Patch(s, start, end, [])| == |Patch(b, r.start, r.end, [])|
    ensures Patch(s, start, end, []) != Patch(b, r.start, r.end, [])
  {
    hide Valid, IsBoundary;
    if start == end {
      NoDeletion(s, start);
      NoDeletion(b, r.start);
    } else {
      assert start == r.start && end == r.end;
      CutSame(s, b, start, end, k);
    }
  }

  lemma NoDeletion(s: Bytes, at: nat)
    requires at <= |s|
    ensures Patch(s, at, at, []) == s
  {
  }

  lemma CutSame(s: Bytes, b: Bytes, start: nat, end: nat, k: nat)
    requires start <= end <= k <= |s| && k <= |b| && s[..k] == b[..k]
    ensures Patch(s, start, end, []) == Patch(b, start, end, []) ==> s == b
  {
    var x, y := Patch(s, start, end, []), Patch(b, start, end, []);
    assert s[end..] == x[start..] && b[end..] == y[start..];
    assert s[..end] == s[..k][..end] == b[..k][..end] == b[..end];
    assert s == s[..end] + s[end..] && b == b[..end] + b[end..];
  }

  // ----- the sequence after it has come apart

  predicate AllEmpty(rs: seq<Resolved>, edits: seq<TextEdit>)
    requires OrdersFit(rs, edits)
  {
    forall i :: 0 <= i < |rs| ==> edits[rs[i].order].newText == []
  }

  /** What the sequence makes of `s` is not what the batch makes of `b`. */
  ghost predicate Differs(s: Bytes, b: Bytes, rs: seq<Resolved>, edits: seq<TextEdit>, enc: Encoding)
    requires OrdersFit(rs, edits) && AllDisjoint(rs)
    requires forall i :: 0 <= i < |rs| ==> rs[i].start <= rs[i].end <= |b|
  {
    || Documents.Panics(s, ReverseChanges(rs, edits), enc)
    || Documents.Patched(s, ReverseChanges(rs, edits), enc) != BackToFront(b, rs, edits)
  }

  /** Edits that only delete never bring the two together again. */
  lemma {:induction false} DivergedStays(
    text: Bytes, s: Bytes, b: Bytes, k: nat, rs: seq<Resolved>, edits: seq<TextEdit>, enc: Encoding)
    requires Diverged(text, s, b, k)
    requires AllResolvedIn(text, rs, edits, enc) && AllInText(rs, text, edits) && AllDisjoint(rs)
    requires OrdersFit(rs, edits) && AllEmpty(rs, edits)
    requires forall i :: 0 <= i < |rs| ==> rs[i].end <= k
    ensures Differs(s, b, rs, edits, enc)
    decreases |rs|
  {
    hide Valid, IsBoundary, PositionToOffset, Patch, Diverged;
    DivergedLengths(text, s, b, k);
    if rs != [] {
      var last := rs[|rs| - 1];
      var rest := rs[..|rs| - 1];
      assert InText(last, text, edits) && ResolvedIn(text, last, edits, enc);
      ResolvesFrom(text, s, k, last, edits, enc);
      var range := edits[last.order].range;
      var start, end := PositionToOffset(s, range.start, enc), PositionToOffset(s, range.end, enc);
      assert ReverseChanges(rs, edits)[1..] == ReverseChanges(rest, edits);
      if start <= end {
        DeletionKeepsApart(text, s, b, k, last, start, end);
        DivergedStays(text, Patch(s, start, end, []), Patch(b, last.start, last.end, []), last.start, rest, edits, enc);
      }
    }
  }

  lemma DivergedLengths(text: Bytes, s: Bytes, b: Bytes, k: nat)
    requires Diverged(text, s, b, k)
    ensures Shared(text, s, k) && k <= |s| <= |b| && s != b
  {
  }

  // ----- where it comes apart

  const LETTER: Bytes := [0x79]

  /** The byte that, put where the next edit starts, moves a position of this edit that is past it. */
  function Wedge(text: Bytes, r: Resolved, next: nat, edits: seq<TextEdit>, enc: Encoding): byte
    requires Fits(text) && r.order < |edits|
  {
    var range := edits[r.order].range;
    if r.end == next && Past(text, range.end, enc) then Mover(text, range.end, enc) else Mover(text, range.start, enc)
  }

  lemma WedgeIsAscii(text: Bytes, r: Resolved, next: nat, edits: seq<TextEdit>, enc: Encoding)
    requires Fits(text) && r.order < |edits|
    ensures var x := Wedge(text, r, next, edits, enc); (x == LF || x == 0x78) && x != LETTER[0] && Valid([x])
  {
    var x := Wedge(text, r, next, edits, enc);
    hide Past, Mover;
    assert x == LF || x == 0x78 by { MoverIsAscii(text, edits[r.order].range, enc); }
    assert [x][1..] == [];
  }

  lemma MoverIsAscii(text: Bytes, range: Range, enc: Encoding)
    requires Fits(text)
    ensures Mover(text, range.start, enc) == LF || Mover(text, range.start, enc) == 0x78
    ensures Mover(text, range.end, enc) == LF || Mover(text, range.end, enc) == 0x78
  {
  }

  /** The wedged edit inserts its letter in the wrong place, deletes too much, or panics. */
  lemma WedgeMoves(text: Bytes, cur: Bytes, k: nat, r: Resolved, edits: seq<TextEdit>, enc: Encoding)
    requires Fits(text) && Fits(cur) && Shared(text, cur, k) && ResolvedIn(text, r, edits, enc)
    requires r.start <= r.end <= k < |cur| && !StaysPut(text, r, k, edits, enc)
    requires cur[k] == Wedge(text, r, k, edits, enc)
    ensures var range := edits[r.order].range;
      var start := PositionToOffset(cur, range.start, enc); var end := PositionToOffset(cur, range.end, enc);
      start > end || end > r.end
  {
    var range := edits[r.order].range;
    ResolvesFrom(text, cur, k, r, edits, enc);
    hide PositionToOffset, Valid, IsBoundary, Mover;
    if r.end == k && Past(text, range.end, enc) {
      PastMoves(text, cur, range.end, enc);
    } else {
      PastMoves(text, cur, range.start, enc);
      if r.end == k {
        StaysUnlessPast(text, cur, k, range.end, enc);
      }
    }
  }

  /** So the two come apart there. */
  lemma WedgeSplits(
    text: Bytes, cur: Bytes, k: nat, r: Resolved, edits: seq<TextEdit>, enc: Encoding, start: nat, end: nat)
    requires Shared(text, cur, k) && r.start <= r.end <= k < |cur| && cur[k] != LETTER[0]
    requires IsBoundary(text, r.start) && IsBoundary(text, r.end)
    requires start <= end <= |cur| && IsBoundary(cur, start) && IsBoundary(cur, end) && end > r.end
    requires if r.start < k then start == r.start else start >= k
    requires if r.end < k then end == r.end else end >= k
    ensures Diverged(text, Patch(cur, start, end, LETTER), Patch(cur, r.start, r.end, LETTER), r.start)
  {
    SharedBoundary(text, cur, k, r.start);
    SharedBoundary(text, cur, k, r.end);
    LetterIsValid();
    PatchShares(text, cur, k, r.start, start, end, LETTER);
    PatchShares(text, cur, k, r.start, r.start, r.end, LETTER);
    hide Valid, IsBoundary;
    var s, b := Patch(cur, start, end, LETTER), Patch(cur, r.start, r.end, LETTER);
    if |s| == |b| {
      assert s[k] == cur[k] && b[k] == LETTER[0];
    }
  }

  lemma LetterIsValid()
    ensures Valid(LETTER)
  {
    assert LETTER[1..] == [];
  }

  /** The last edit is the wedged one, and the wedge is in place behind it. */
  lemma DivergesAtWedge(text: Bytes, cur: Bytes, k: nat, rs: seq<Resolved>, edits: seq<TextEdit>, enc: Encoding)
    requires Fits(text) && Fits(cur) && Shared(text, cur, k) && rs != []
    requires AllResolvedIn(text, rs, edits, enc) && AllInText(rs, text, edits) && AllDisjoint(rs) && OrdersFit(rs, edits)
    requires var last := rs[|rs| - 1];
      && last.end <= k < |cur| && !StaysPut(text, last, k, edits, enc)
      && cur[k] == Wedge(text, last, k, edits, enc) && edits[last.order].newText == LETTER
    requires AllEmpty(rs[..|rs| - 1], edits)
    ensures forall i :: 0 <= i < |rs| ==> rs[i].end <= |cur|
    ensures Differs(cur, cur, rs, edits, enc)
  {
    hide Valid, IsBoundary, PositionToOffset, Patch, Diverged, StaysPut, Wedge, BackToFront;
    var last := rs[|rs| - 1];
    var rest := rs[..|rs| - 1];
    assert InText(last, text, edits) && ResolvedIn(text, last, edits, enc);
    WedgeMoves(text, cur, k, last, edits, enc);
    WedgeIsAscii(text, last, k, edits, enc);
    ResolvesFrom(text, cur, k, last, edits, enc);
    var range := edits[last.order].range;
    var start, end := PositionToOffset(cur, range.start, enc), PositionToOffset(cur, range.end, enc);
    assert ReverseChanges(rs, edits)[1..] == ReverseChanges(rest, edits);
    if start <= end {
      WedgeSplits(text, cur, k, last, edits, enc, start, end);
      var s, b := Patch(cur, start, end, LETTER), Patch(cur, last.start, last.end, LETTER);
      DivergedLengths(text, s, b, last.start);
      DivergedStays(text, s, b, last.start, rest, edits, enc);
      OneBatchStep(cur, rs, edits);
    }
  }

  lemma OneBatchStep(cur: Bytes, rs: seq<Resolved>, edits: seq<TextEdit>)
    requires rs != [] && OrdersFit(rs, edits) && AllDisjoint(rs)
    requires forall i :: 0 <= i < |rs| ==> rs[i].start <= rs[i].end <= |cur|
    ensures var last := rs[|rs| - 1]; var next := Patch(cur, last.start, last.end, edits[last.order].newText);
      && (forall i :: 0 <= i < |rs| - 1 ==> rs[i].end <= |next|)
      && BackToFront(cur, rs, edits) == BackToFront(next, rs[..|rs| - 1], edits)
  {
    var last := rs[|rs| - 1];
    assert forall i :: 0 <= i < |rs| - 1 ==> rs[i].end <= last.start;
  }

  /** The texts that wedge the edits `i` and `i + 1`: nothing but a letter, and the byte that moves it. */
  predicate Wedged(text: Bytes, rs: seq<Resolved>, i: nat, edits: seq<TextEdit>, enc: Encoding)
    requires Fits(text) && OrdersFit(rs, edits) && i + 1 < |rs|
  {
    && edits[rs[i].order].newText == LETTER
    && edits[rs[i + 1].order].newText == [Wedge(text, rs[i], rs[i + 1].start, edits, enc)]
    && forall j :: 0 <= j < |rs| && j != i && j != i + 1 ==> edits[rs[j].order].newText == []
  }

  lemma {:induction false} Diverges(
    text: Bytes, cur: Bytes, k: nat, rs: seq<Resolved>, i: nat, edits: seq<TextEdit>, enc: Encoding)
    requires Fits(text) && Shared(text, cur, k) && |cur| <= |text| && |text| + 2 < 0xFFFF_FFFF && i + 1 < |rs|
    requires AllResolvedIn(text, rs, edits, enc) && AllInText(rs, text, edits) && AllDisjoint(rs) && OrdersFit(rs, edits)
    requires TextsValid(edits) && Wedged(text, rs, i, edits, enc)
    requires var last := rs[|rs| - 1]; last.end <= k && (cur == text || StaysPut(text, last, k, edits, enc))
    requires forall j :: i + 1 <= j < |rs| - 1 ==> StaysPut(text, rs[j], rs[j + 1].start, edits, enc)
    requires !StaysPut(text, rs[i], rs[i + 1].start, edits, enc)
    ensures forall j :: 0 <= j < |rs| ==> rs[j].end <= |cur|
    ensures Differs(cur, cur, rs, edits, enc)
    decreases |rs|
  {
    hide Valid, IsBoundary, PositionToOffset, StaysPut, Wedge, BackToFront, Documents.ApplyChange;
    var last := rs[|rs| - 1];
    var rest := rs[..|rs| - 1];
    var newText := edits[last.order].newText;
    var next := Patch(cur, last.start, last.end, newText);
    assert InText(last, text, edits) && ResolvedIn(text, last, edits, enc);
    ResolvesAlike(text, cur, k, last, edits, enc);
    SharedBoundary(text, cur, k, last.start);
    SharedBoundary(text, cur, k, last.end);
    PatchShares(text, cur, k, last.start, last.start, last.end, newText);
    assert ReverseChanges(rs, edits)[1..] == ReverseChanges(rest, edits);
    OneBatchStep(cur, rs, edits);
    if |rest| == i + 1 {
      assert next[last.start] == newText[0];
      DivergesAtWedge(text, next, last.start, rest, edits, enc);
    } else {
      Diverges(text, next, last.start, rest, i, edits, enc);
    }
  }

  // ----- the same ranges with other texts

  /** The edits with their texts replaced. */
  function Retexted(edits: seq<TextEdit>, news: seq<Bytes>): (r: seq<TextEdit>)
    requires |news| == |edits|
    ensures |r| == |edits| && forall i :: 0 <= i < |r| ==> r[i] == TextEdit(edits[i].range, news[i])
  {
    if edits == [] then []
    else Retexted(edits[..|edits| - 1], news[..|news| - 1]) + [TextEdit(edits[|edits| - 1].range, news[|news| - 1])]
  }

  predicate AllValid(news: seq<Bytes>) {
    forall i :: 0 <= i < |news| ==> Valid(news[i])
  }

  /** Resolving, accepting and stability look at the ranges alone. */
  lemma RangesDecide(text: Bytes, edits: seq<TextEdit>, news: seq<Bytes>, enc: Encoding)
    requires Fits(text) && |news| == |edits|
    ensures var other := Retexted(edits, news);
      && ResolveAll(text, other, enc) == ResolveAll(text, edits, enc)
      && (StableBatch(text, other, enc) <==> StableBatch(text, edits, enc))
  {
    var other := Retexted(edits, news);
    hide PositionToOffset, Valid, Past;
    assert ResolveAll(text, other, enc) == ResolveAll(text, edits, enc);
    SortedResolved(text, edits, enc);
    SortedResolved(text, other, enc);
    hide ResolveAll, SortByKey, Retexted;
    var sorted := SortByKey(ResolveAll(text, edits, enc));
    forall i | 0 <= i < |sorted| - 1
      ensures StaysPut(text, sorted[i], sorted[i + 1].start, other, enc)
        <==> StaysPut(text, sorted[i], sorted[i + 1].start, edits, enc)
    {
      assert ResolvedIn(text, sorted[i], edits, enc);
      SameStaysPut(text, sorted[i], sorted[i + 1].start, edits, other, enc);
    }
    hide StaysPut;
  }

  // ----- the texts that tell

  /** Texts that are all empty but two. */
  function TwoTexts(n: nat, a: nat, x: Bytes, b: nat, y: Bytes): (news: seq<Bytes>)
    ensures |news| == n
    ensures forall j :: 0 <= j < n ==> news[j] == if j == a then x else if j == b then y else []
  {
    if n == 0 then [] else TwoTexts(n - 1, a, x, b, y) + [if n - 1 == a then x else if n - 1 == b then y else []]
  }

  lemma {:induction false} TwoTextsAreShort(edits: seq<TextEdit>, a: nat, b: nat)
    requires forall j :: 0 <= j < |edits| ==> |edits[j].newText| <= if j == a || j == b then 1 else 0
    ensures NewLength(edits) <= (if a < |edits| then 1 else 0) + (if b < |edits| then 1 else 0)
    decreases |edits|
  {
    if edits != [] {
      TwoTextsAreShort(edits[..|edits| - 1], a, b);
    }
  }

  /** Some pair that touches unstably, with only stable ones after it. */
  lemma {:induction false} LastUnstable(text: Bytes, rs: seq<Resolved>, edits: seq<TextEdit>, enc: Encoding) returns (i: nat)
    requires Fits(text) && AllResolvedIn(text, rs, edits, enc) && !Stable(text, rs, edits, enc)
    ensures i + 1 < |rs| && OrdersFit(rs, edits) && !StaysPut(text, rs[i], rs[i + 1].start, edits, enc)
    ensures forall j :: i + 1 <= j < |rs| - 1 ==> StaysPut(text, rs[j], rs[j + 1].start, edits, enc)
  {
    hide Valid, StaysPut, PositionToOffset;
    i := |rs| - 2;
    while StaysPut(text, rs[i], rs[i + 1].start, edits, enc)
      invariant i + 1 < |rs|
      invariant forall j :: i + 1 <= j < |rs| - 1 ==> StaysPut(text, rs[j], rs[j + 1].start, edits, enc)
      decreases i
    {
      i := i - 1;
    }
  }

  /** The texts for a batch that is unstable at its sorted edit `i`. */
  function Telling(text: Bytes, rs: seq<Resolved>, i: nat, edits: seq<TextEdit>, enc: Encoding): (news: seq<Bytes>)
    requires Fits(text) && OrdersFit(rs, edits) && i + 1 < |rs|
    ensures |news| == |edits|
  {
    TwoTexts(|edits|, rs[i].order, LETTER, rs[i + 1].order, [Wedge(text, rs[i], rs[i + 1].start, edits, enc)])
  }

  /** The wedge looks at the range alone. */
  lemma SameWedge(text: Bytes, r: Resolved, next: nat, edits: seq<TextEdit>, other: seq<TextEdit>, enc: Encoding)
    requires Fits(text) && r.order < |edits| == |other| && other[r.order].range == edits[r.order].range
    ensures Wedge(text, r, next, other, enc) == Wedge(text, r, next, edits, enc)
  {
    hide Past, Mover;
  }

  lemma SameStaysPut(text: Bytes, r: Resolved, next: nat, edits: seq<TextEdit>, other: seq<TextEdit>, enc: Encoding)
    requires Fits(text) && r.order < |edits| == |other| && other[r.order].range == edits[r.order].range
    ensures StaysPut(text, r, next, other, enc) <==> StaysPut(text, r, next, edits, enc)
  {
    hide Past;
  }

  lemma TellingIsWedged(text: Bytes, rs: seq<Resolved>, i: nat, edits: seq<TextEdit>, enc: Encoding)
    requires Fits(text) && OrdersFit(rs, edits) && DistinctOrders(rs) && i + 1 < |rs|
    ensures var other := Retexted(edits, Telling(text, rs, i, edits, enc));
      && TextsValid(other) && NewLength(other) <= 2
      && OrdersFit(rs, other) && Wedged(text, rs, i, other, enc)
    ensures AllValid(Telling(text, rs, i, edits, enc))
  {
    var other := Retexted(edits, Telling(text, rs, i, edits, enc));
    TellingIsValid(text, rs, i, edits, enc);
    SameWedge(text, rs[i], rs[i + 1].start, edits, other, enc);
    hide Valid, Wedge, NewLength;
    TwoTextsAreShort(other, rs[i].order, rs[i + 1].order);
  }

  lemma TellingIsValid(text: Bytes, rs: seq<Resolved>, i: nat, edits: seq<TextEdit>, enc: Encoding)
    requires Fits(text) && OrdersFit(rs, edits) && i + 1 < |rs|
    ensures AllValid(Telling(text, rs, i, edits, enc))
    ensures TextsValid(Retexted(edits, Telling(text, rs, i, edits, enc)))
  {
    WedgeIsAscii(text, rs[i], rs[i + 1].start, edits, enc);
    LetterIsValid();
    NothingIsValid();
    hide Valid, Wedge;
  }

  /** An unstable batch has texts of at most two bytes with which it differs from its sequence. */
  lemma UnstableDiffers(text: Bytes, edits: seq<TextEdit>, enc: Encoding) returns (news: seq<Bytes>)
    requires Fits(text) && |text| + 2 < 0xFFFF_FFFF
    requires Accepted(text, edits, enc) && !StableBatch(text, edits, enc)
    ensures |news| == |edits| && AllValid(news) && NewLength(Retexted(edits, news)) <= 2
    ensures !Agrees(text, Retexted(edits, news), enc)
  {
    SortedResolved(text, edits, enc);
    SortedDistinct(text, edits, enc);
    hide SortByKey, ResolveAll, Valid, StaysPut, Wedged, Telling, Differs, BackToFront, Documents.Patched, Documents.Panics;
    var rs := SortByKey(ResolveAll(text, edits, enc));
    var i := LastUnstable(text, rs, edits, enc);
    news := Telling(text, rs, i, edits, enc);
    TellingIsWedged(text, rs, i, edits, enc);
    RangesDecide(text, edits, news, enc);
    UnstableDivides(text, edits, news, i, enc);
  }

  lemma UnstableDivides(text: Bytes, edits: seq<TextEdit>, news: seq<Bytes>, i: nat, enc: Encoding)
    requires Fits(text) && |text| + 2 < 0xFFFF_FFFF && Accepted(text, edits, enc) && |news| == |edits|
    requires var other := Retexted(edits, news); var rs := SortByKey(ResolveAll(text, other, enc));
      && TextsValid(other) && OrdersFit(rs, other) && OrdersFit(rs, edits) && i + 1 < |rs|
      && Wedged(text, rs, i, other, enc)
      && !StaysPut(text, rs[i], rs[i + 1].start, edits, enc)
      && forall j :: i + 1 <= j < |rs| - 1 ==> StaysPut(text, rs[j], rs[j + 1].start, edits, enc)
    ensures !Agrees(text, Retexted(edits, news), enc)
  {
    var other := Retexted(edits, news);
    RangesDecide(text, edits, news, enc);
    SortedResolved(text, other, enc);
    SortedInText(text, other, enc);
    WholeIsShared(text);
    hide SortByKey, ResolveAll, Valid, Wedged, StaysPut, PositionToOffset, BackToFront;
    hide Documents.Patched, Documents.Panics;
    var rs := SortByKey(ResolveAll(text, other, enc));
    forall j | i <= j < |rs| - 1
      ensures StaysPut(text, rs[j], rs[j + 1].start, other, enc) <==> StaysPut(text, rs[j], rs[j + 1].start, edits, enc)
    {
      SameStaysPut(text, rs[j], rs[j + 1].start, edits, other, enc);
    }
    Diverges(text, text, |text|, rs, i, other, enc);
  }

  /** Texts for the edits that leave the result small enough. */
  predicate NewsFit(text: Bytes, edits: seq<TextEdit>, news: seq<Bytes>) {
    |news| == |edits| && AllValid(news) && |text| + NewLength(Retexted(edits, news)) < 0xFFFF_FFFF
  }

  /** Whatever texts are given to the edits, the batch and the sequence agree. */
  ghost predicate AlwaysAgrees(text: Bytes, edits: seq<TextEdit>, enc: Encoding) {
    forall news: seq<Bytes> :: NewsFit(text, edits, news) ==> Agrees(text, Retexted(edits, news), enc)
  }

  /**
    The condition is exact. An accepted set of ranges gives the same result as a
    batch and as a sequence of changes, for all texts, if and only if no edit
    that touches the next one has a position past its offset.
   */
  lemma StabilityIsExact(text: Bytes, edits: seq<TextEdit>, enc: Encoding)
    requires Fits(text) && |text| + 2 < 0xFFFF_FFFF && Accepted(text, edits, enc)
    ensures StableBatch(text, edits, enc) <==> AlwaysAgrees(text, edits, enc)
  {
    hide StableBatch, Agrees, ResolveAll, Valid, Retexted, NewLength;
    if StableBatch(text, edits, enc) {
      forall news: seq<Bytes> | NewsFit(text, edits, news)
        ensures Agrees(text, Retexted(edits, news), enc)
      {
        RangesDecide(text, edits, news, enc);
        BatchIsSequence(text, Retexted(edits, news), enc);
      }
    } else {
      var news := UnstableDiffers(text, edits, enc);
      assert NewsFit(text, edits, news);
    }
  }
}
