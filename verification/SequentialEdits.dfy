/**
  Batch edits and the document store: applying a batch at once against the
  original text gives the same text as feeding the edits to `did_change` one at
  a time, last first, although each is then resolved against edited text. This
  holds as long as no edit that touches the next one has a position past its
  offset (src/text.rs:184-222, src/documents.rs:143-166).
 */
module SequentialEdits {
  import opened Strings
  import opened Text
  import opened Wrappers
  import opened Edits
  import opened StablePositions
  import Documents
  import Sorting

  /** The edits as content changes, the last in document order first. */
  function ReverseChanges(rs: seq<Resolved>, edits: seq<TextEdit>): seq<Documents.Change>
    requires forall i :: 0 <= i < |rs| ==> rs[i].order < |edits|
    decreases |rs|
  {
    if rs == [] then []
    else
      var edit := edits[rs[|rs| - 1].order];
      [Documents.Change(Some(edit.range), edit.newText)] + ReverseChanges(rs[..|rs| - 1], edits)
  }

  /** The edit's positions are the ones its byte offsets have: nothing was clamped or rounded. */
  predicate ExactFor(text: Bytes, r: Resolved, edits: seq<TextEdit>, enc: Encoding)
    requires Fits(text) && r.order < |edits|
  {
    edits[r.order].range == Range(OffsetToPosition(text, r.start, enc), OffsetToPosition(text, r.end, enc))
  }

  predicate Exact(text: Bytes, edits: seq<TextEdit>, enc: Encoding)
    requires Fits(text)
  {
    forall i :: 0 <= i < |edits| ==> ExactFor(text, ResolveOne(text, edits[i], i, enc), edits, enc)
  }

  lemma {:induction false} InsertedSnoc(rs: seq<Resolved>, edits: seq<TextEdit>)
    requires rs != [] && forall i :: 0 <= i < |rs| ==> rs[i].order < |edits|
    ensures Inserted(rs, edits) == Inserted(rs[..|rs| - 1], edits) + |edits[rs[|rs| - 1].order].newText|
    decreases |rs|
  {
    if |rs| > 1 {
      InsertedSnoc(rs[1..], edits);
      assert rs[1..][..|rs| - 2] == rs[..|rs| - 1][1..];
    }
  }

  // ----- when every edit means the same one at a time

  /** `r` is what its edit resolves to in the original text. */
  predicate ResolvedIn(text: Bytes, r: Resolved, edits: seq<TextEdit>, enc: Encoding) {
    && r.order < |edits|
    && r.start == PositionToOffset(text, edits[r.order].range.start, enc)
    && r.end == PositionToOffset(text, edits[r.order].range.end, enc)
  }

  predicate AllResolvedIn(text: Bytes, rs: seq<Resolved>, edits: seq<TextEdit>, enc: Encoding) {
    forall i :: 0 <= i < |rs| ==> ResolvedIn(text, rs[i], edits, enc)
  }

  /** Where the edit touches the next one, its positions are not past their offset. */
  predicate StaysPut(text: Bytes, r: Resolved, next: nat, edits: seq<TextEdit>, enc: Encoding)
    requires Fits(text) && r.order < |edits|
  {
    && (r.end == next ==> !Past(text, edits[r.order].range.end, enc))
    && (r.start == next ==> !Past(text, edits[r.order].range.start, enc))
  }

  predicate Stable(text: Bytes, rs: seq<Resolved>, edits: seq<TextEdit>, enc: Encoding)
    requires Fits(text) && AllResolvedIn(text, rs, edits, enc)
  {
    forall i :: 0 <= i < |rs| - 1 ==> StaysPut(text, rs[i], rs[i + 1].start, edits, enc)
  }

  /** An edit resolves in `cur`, the same as the original up to `k`, to where it did in the original. */
  lemma ResolvesAlike(text: Bytes, cur: Bytes, k: nat, r: Resolved, edits: seq<TextEdit>, enc: Encoding)
    requires Fits(text) && Fits(cur) && Shared(text, cur, k) && ResolvedIn(text, r, edits, enc)
    requires r.start <= r.end <= k && (cur == text || StaysPut(text, r, k, edits, enc))
    ensures var edit := edits[r.order];
      && r.end <= |cur|
      && Documents.ApplyChange(cur, Documents.Change(Some(edit.range), edit.newText), enc)
         == Some(Patch(cur, r.start, r.end, edit.newText))
  {
    hide Valid, OffsetToPosition, PositionToOffset, IsBoundary, Past;
    var range := edits[r.order].range;
    if cur != text {
      SharedPosition(text, cur, k, range.start, enc);
      SharedPosition(text, cur, k, range.end, enc);
      if r.start == k {
        StaysUnlessPast(text, cur, k, range.start, enc);
      }
      if r.end == k {
        StaysUnlessPast(text, cur, k, range.end, enc);
      }
    }
  }

  lemma PatchIsText(cur: Bytes, start: nat, end: nat, newText: Bytes)
    requires Valid(cur) && Valid(newText) && start <= end <= |cur|
    requires IsBoundary(cur, start) && IsBoundary(cur, end)
    ensures Valid(Patch(cur, start, end, newText)) && IsBoundary(Patch(cur, start, end, newText), start)
  {
    hide HeadWidth, Valid;
    BoundaryIsValidCut(cur, start);
    BoundaryIsValidCut(cur, end);
    ValidConcat(newText, cur[end..]);
    ValidConcat(cur[..start], newText + cur[end..]);
    var p := Patch(cur, start, end, newText);
    assert p == cur[..start] + (newText + cur[end..]);
    assert p[..start] == cur[..start] && p[start..] == newText + cur[end..];
    BoundaryIsValidCut(p, start);
  }

  /** A boundary inside the shared part is one of both texts. */
  lemma SharedBoundary(a: Bytes, b: Bytes, k: nat, i: nat)
    requires Shared(a, b, k) && i <= k && IsBoundary(a, i)
    ensures IsBoundary(b, i) && a[..i] == b[..i]
  {
    hide Valid;
    assert a[..i] == a[..k][..i] == b[..k][..i] == b[..i];
    if i < k {
      assert a[i] == a[..k][i] == b[..k][i] == b[i];
    }
  }

  /** Patching inside the shared part, or from inside it, leaves what comes before shared. */
  lemma PatchShares(text: Bytes, cur: Bytes, k: nat, start: nat, from: nat, to: nat, newText: Bytes)
    requires Shared(text, cur, k) && start <= k && IsBoundary(text, start) && Valid(newText)
    requires start <= from <= to <= |cur| && IsBoundary(cur, from) && IsBoundary(cur, to)
    ensures Shared(text, Patch(cur, from, to, newText), start)
  {
    SharedBoundary(text, cur, k, start);
    PatchIsText(cur, from, to, newText);
    var p := Patch(cur, from, to, newText);
    hide Valid;
    assert p[..from] == cur[..from];
    assert p[..start] == p[..from][..start] == cur[..from][..start] == cur[..start];
    if start < from {
      assert p[start] == p[..from][start] == cur[start];
    } else {
      hide IsBoundary;
    }
  }

  lemma {:induction false} SequenceStep(
    text: Bytes, cur: Bytes, k: nat, rs: seq<Resolved>, edits: seq<TextEdit>, enc: Encoding)
    requires Fits(text) && TextsValid(edits) && AllInText(rs, text, edits) && AllDisjoint(rs)
    requires AllResolvedIn(text, rs, edits, enc) && Stable(text, rs, edits, enc)
    requires Shared(text, cur, k)
    requires rs != [] ==>
      var last := rs[|rs| - 1]; last.end <= k && (cur == text || StaysPut(text, last, k, edits, enc))
    requires |cur| + Inserted(rs, edits) < 0xFFFF_FFFF
    ensures forall i :: 0 <= i < |rs| ==> rs[i].end <= |cur|
    ensures !Documents.Panics(cur, ReverseChanges(rs, edits), enc)
    ensures Documents.ChangesFit(cur, ReverseChanges(rs, edits), enc)
    ensures Documents.Patched(cur, ReverseChanges(rs, edits), enc) == BackToFront(cur, rs, edits)
    decreases |rs|
  {
    hide Valid, IsBoundary, Documents.ApplyChange, StaysPut, Past, ResolvedIn;
    if rs != [] {
      var last := rs[|rs| - 1];
      var rest := rs[..|rs| - 1];
      var newText := edits[last.order].newText;
      assert InText(last, text, edits) && ResolvedIn(text, last, edits, enc);
      ResolvesAlike(text, cur, k, last, edits, enc);
      SharedBoundary(text, cur, k, last.start);
      SharedBoundary(text, cur, k, last.end);
      PatchShares(text, cur, k, last.start, last.start, last.end, newText);
      InsertedSnoc(rs, edits);
      StableBefore(text, rs, edits, enc);
      SequenceStep(text, Patch(cur, last.start, last.end, newText), last.start, rest, edits, enc);
      assert ReverseChanges(rs, edits)[1..] == ReverseChanges(rest, edits);
    }
  }

  /** Without its last edit the rest is as stable, and touches that edit stably. */
  lemma StableBefore(text: Bytes, rs: seq<Resolved>, edits: seq<TextEdit>, enc: Encoding)
    requires Fits(text) && AllResolvedIn(text, rs, edits, enc) && Stable(text, rs, edits, enc) && rs != []
    ensures var rest := rs[..|rs| - 1];
      && AllResolvedIn(text, rest, edits, enc) && Stable(text, rest, edits, enc)
      && (rest != [] ==> StaysPut(text, rest[|rest| - 1], rs[|rs| - 1].start, edits, enc))
  {
    hide StaysPut, ResolvedIn, Valid;
  }

  // ----- how much a batch inserts

  /** The length of the new texts together. */
  function NewLength(edits: seq<TextEdit>): nat {
    if edits == [] then 0 else NewLength(edits[..|edits| - 1]) + |edits[|edits| - 1].newText|
  }

  predicate OrdersFit(rs: seq<Resolved>, edits: seq<TextEdit>) {
    forall i :: 0 <= i < |rs| ==> rs[i].order < |edits|
  }

  lemma {:induction false} InsertedOfInsert(x: Resolved, rs: seq<Resolved>, edits: seq<TextEdit>)
    requires OrdersFit(rs, edits) && x.order < |edits|
    ensures OrdersFit(Sorting.Insert(x, rs, KeyLeq), edits)
    ensures Inserted(Sorting.Insert(x, rs, KeyLeq), edits) == |edits[x.order].newText| + Inserted(rs, edits)
    decreases |rs|
  {
    if rs != [] && !KeyLeq(x, rs[0]) {
      InsertedOfInsert(x, rs[1..], edits);
    }
  }

  lemma {:induction false} InsertedOfSort(rs: seq<Resolved>, edits: seq<TextEdit>)
    requires OrdersFit(rs, edits)
    ensures OrdersFit(Sorting.Sort(rs, KeyLeq), edits)
    ensures Inserted(Sorting.Sort(rs, KeyLeq), edits) == Inserted(rs, edits)
    decreases |rs|
  {
    if rs != [] {
      InsertedOfSort(rs[1..], edits);
      InsertedOfInsert(rs[0], Sorting.Sort(rs[1..], KeyLeq), edits);
    }
  }

  lemma {:induction false} InsertedInOrder(rs: seq<Resolved>, edits: seq<TextEdit>)
    requires |rs| <= |edits| && forall i :: 0 <= i < |rs| ==> rs[i].order == i
    ensures Inserted(rs, edits) == NewLength(edits[..|rs|])
    decreases |rs|
  {
    if rs != [] {
      var n := |rs| - 1;
      InsertedSnoc(rs, edits);
      InsertedInOrder(rs[..n], edits);
      assert edits[..n + 1][..n] == edits[..n];
    }
  }

  /** Sorting the edits does not change how much they insert. */
  lemma InsertedInAll(text: Bytes, edits: seq<TextEdit>, enc: Encoding)
    ensures var sorted := SortByKey(ResolveAll(text, edits, enc));
      OrdersFit(sorted, edits) && Inserted(sorted, edits) == NewLength(edits)
  {
    var rs := ResolveAll(text, edits, enc);
    InsertedInOrder(rs, edits);
    assert edits[..|rs|] == edits;
    InsertedOfSort(rs, edits);
  }

  lemma SortedResolved(text: Bytes, edits: seq<TextEdit>, enc: Encoding)
    ensures AllResolvedIn(text, SortByKey(ResolveAll(text, edits, enc)), edits, enc)
  {
    hide PositionToOffset;
    var rs := ResolveAll(text, edits, enc);
    var sorted := SortByKey(rs);
    hide SortByKey;
    forall i | 0 <= i < |sorted| ensures ResolvedIn(text, sorted[i], edits, enc) {
      assert sorted[i] in multiset(sorted);
      assert sorted[i] in rs;
    }
  }

  /** The batch and the sequence of changes, last edit first, come to the same text. */
  ghost predicate Agrees(text: Bytes, edits: seq<TextEdit>, enc: Encoding) {
    var sorted := SortByKey(ResolveAll(text, edits, enc));
    && AllInText(sorted, text, edits) && AllDisjoint(sorted)
    && !Documents.Panics(text, ReverseChanges(sorted, edits), enc)
    && Documents.Patched(text, ReverseChanges(sorted, edits), enc) == BackToFront(text, sorted, edits)
  }

  /** An accepted batch in which no edit that touches the next has a position past its offset. */
  ghost predicate StableBatch(text: Bytes, edits: seq<TextEdit>, enc: Encoding)
    requires Fits(text)
  {
    SortedResolved(text, edits, enc);
    Stable(text, SortByKey(ResolveAll(text, edits, enc)), edits, enc)
  }

  /**
    For an accepted stable batch, `did_change` fed the edits in reverse document
    order neither panics nor overflows, and ends with the batch's result.
   */
  lemma BatchIsSequence(text: Bytes, edits: seq<TextEdit>, enc: Encoding)
    requires Fits(text) && TextsValid(edits)
    requires Accepted(text, edits, enc) && StableBatch(text, edits, enc)
    requires |text| + NewLength(edits) < 0xFFFF_FFFF
    ensures Agrees(text, edits, enc)
    ensures var sorted := SortByKey(ResolveAll(text, edits, enc));
      OrdersFit(sorted, edits) && Documents.ChangesFit(text, ReverseChanges(sorted, edits), enc)
  {
    InsertedInAll(text, edits, enc);
    SortedInText(text, edits, enc);
    SortedResolved(text, edits, enc);
    WholeIsShared(text);
    hide PositionToOffset, Valid, IsBoundary, SortByKey, BackToFront, ReverseChanges, Inserted, ResolveAll;
    var sorted := SortByKey(ResolveAll(text, edits, enc));
    SequenceStep(text, text, |text|, sorted, edits, enc);
  }

  lemma WholeIsShared(text: Bytes)
    requires Valid(text)
    ensures Shared(text, text, |text|)
  {
  }

  /** Exact positions are stable: a position is never past itself. */
  lemma ExactIsStable(text: Bytes, edits: seq<TextEdit>, enc: Encoding)
    requires Fits(text) && Exact(text, edits, enc)
    ensures StableBatch(text, edits, enc)
  {
    SortedResolved(text, edits, enc);
    hide Valid, PositionToOffset, OffsetToPosition;
    var rs := ResolveAll(text, edits, enc);
    var sorted := SortByKey(rs);
    hide SortByKey;
    forall i | 0 <= i < |sorted| - 1 ensures StaysPut(text, sorted[i], sorted[i + 1].start, edits, enc) {
      assert sorted[i] in multiset(sorted);
      var j :| 0 <= j < |rs| && rs[j] == sorted[i];
      assert ExactFor(text, ResolveOne(text, edits[j], j, enc), edits, enc);
    }
  }

  // ----- one notification per edit

  function Notifications(uri: Bytes, changes: seq<Documents.Change>, version: int): seq<Documents.Op> {
    if changes == [] then []
    else [Documents.Changed(uri, version, [changes[0]])] + Notifications(uri, changes[1..], version + 1)
  }

  /** Changes sent one notification each, with rising versions, do what they do together. */
  lemma {:induction false} OneByOne(
    entries: Documents.Entries, uri: Bytes, changes: seq<Documents.Change>, version: int, enc: Encoding)
    requires uri in entries && entries[uri].document.version <= version
    requires !Documents.Panics(entries[uri].document.text, changes, enc)
    ensures var ops := Notifications(uri, changes, version);
      && Documents.NeverPanics(entries, ops, enc)
      && uri in Documents.Run(entries, ops, enc)
      && Documents.Run(entries, ops, enc)[uri].document.text
         == Documents.Patched(entries[uri].document.text, changes, enc)
    decreases |changes|
  {
    if changes != [] {
      var text := entries[uri].document.text;
      var op := Documents.Changed(uri, version, [changes[0]]);
      OneChange(text, changes[0], enc);
      hide Documents.ApplyChange;
      var next := Documents.Step(entries, op, enc);
      assert next[uri].document.text == Documents.ApplyChange(text, changes[0], enc).value;
      OneByOne(next, uri, changes[1..], version + 1, enc);
      assert Notifications(uri, changes, version)[1..] == Notifications(uri, changes[1..], version + 1);
    }
  }

  lemma OneChange(text: Bytes, change: Documents.Change, enc: Encoding)
    ensures Documents.Panics(text, [change], enc) <==> Documents.ApplyChange(text, change, enc).None?
    ensures Documents.ApplyChange(text, change, enc).Some? ==>
      Documents.Patched(text, [change], enc) == Documents.ApplyChange(text, change, enc).value
  {
    hide Documents.ApplyChange;
    assert [change][1..] == [];
  }

  /**
    So sending a stable batch as one `did_change` per edit, last edit first, each
    with the next version, leaves the stored document with the batch's result.
   */
  lemma BatchIsNotifications(entries: Documents.Entries, uri: Bytes, edits: seq<TextEdit>, version: int, enc: Encoding)
    requires uri in entries && entries[uri].document.version <= version
    requires var text := entries[uri].document.text;
      && Fits(text) && TextsValid(edits) && Accepted(text, edits, enc) && StableBatch(text, edits, enc)
      && |text| + NewLength(edits) < 0xFFFF_FFFF
    ensures var text := entries[uri].document.text;
      var sorted := SortByKey(ResolveAll(text, edits, enc));
      && AllInText(sorted, text, edits) && AllDisjoint(sorted)
      && var after := Documents.Run(entries, Notifications(uri, ReverseChanges(sorted, edits), version), enc);
      uri in after && after[uri].document.text == BackToFront(text, sorted, edits)
  {
    var text := entries[uri].document.text;
    BatchIsSequence(text, edits, enc);
    var sorted := SortByKey(ResolveAll(text, edits, enc));
    hide SortByKey, ResolveAll, BackToFront, Documents.Patched, Documents.Panics, Documents.Run, Valid, ReverseChanges;
    OneByOne(entries, uri, ReverseChanges(sorted, edits), version, enc);
  }

  // ----- clamped positions

  const PAST := Range(Position(0, 1), Position(0, 1))
  const ONE: Bytes := [0x31]
  const TWO: Bytes := [0x32]
  const CLAMPED := [TextEdit(PAST, ONE), TextEdit(PAST, TWO)]

  lemma ClampedBatch()
    ensures var rs := [Resolved(0, 0, 0), Resolved(0, 0, 1)];
      && ResolveAll([], CLAMPED, Utf8) == rs && SortByKey(rs) == rs
      && BackToFront([], rs, CLAMPED) == ONE + TWO
  {
    var rs := [Resolved(0, 0, 0), Resolved(0, 0, 1)];
    assert PositionToOffset([], Position(0, 1), Utf8) == 0;
    assert ResolveAll([], CLAMPED, Utf8) == rs;
    Sorting.SortOfSorted(rs, KeyLeq);
    assert rs[..1] == [rs[0]] && [rs[0]][..0] == [];
    assert Patch([], 0, 0, TWO) == TWO && Patch(TWO, 0, 0, ONE) == ONE + TWO;
    assert BackToFront(TWO, [rs[0]], CLAMPED) == ONE + TWO;
  }

  lemma ClampedSequence()
    ensures var changes := [Documents.Change(Some(PAST), TWO), Documents.Change(Some(PAST), ONE)];
      && ReverseChanges([Resolved(0, 0, 0), Resolved(0, 0, 1)], CLAMPED) == changes
      && Documents.Patched([], changes, Utf8) == TWO + ONE
  {
    var rs := [Resolved(0, 0, 0), Resolved(0, 0, 1)];
    var changes := [Documents.Change(Some(PAST), TWO), Documents.Change(Some(PAST), ONE)];
    assert rs[..1] == [rs[0]] && [rs[0]][..0] == [];
    assert ReverseChanges([rs[0]], CLAMPED) == [Documents.Change(Some(PAST), ONE)];
    assert PositionToOffset([], Position(0, 1), Utf8) == 0;
    assert PositionToOffset(TWO, Position(0, 1), Utf8) == 1 by {
      assert NextLf(TWO, 0) == 1;
      assert TWO[0..1] == TWO;
    }
    assert Patch([], 0, 0, TWO) == TWO && Patch(TWO, 1, 1, ONE) == TWO + ONE;
    hide PositionToOffset;
    assert Documents.ApplyChange([], changes[0], Utf8) == Some(TWO);
    assert Documents.ApplyChange(TWO, changes[1], Utf8) == Some(TWO + ONE);
    assert changes[1..] == [changes[1]] && changes[1..][1..] == [];
    assert Documents.Patched(TWO + ONE, changes[1..][1..], Utf8) == TWO + ONE;
    assert Documents.Patched(TWO, changes[1..], Utf8) == TWO + ONE;
  }

  /**
    Otherwise it can fail: two inserts past the end of an empty line. The
    batch clamps both to the same offset and keeps their order; one at a time,
    the second to be resolved is clamped less and lands after the first.
   */
  lemma ClampedEditsDiffer()
    ensures TextsValid(CLAMPED) && Accepted([], CLAMPED, Utf8)
    ensures !Agrees([], CLAMPED, Utf8)
  {
    ClampedBatch();
    ClampedSequence();
    hide BackToFront, Documents.Patched, ResolveAll, SortByKey, ReverseChanges;
    assert (TWO + ONE)[0] != (ONE + TWO)[0];
  }
}
