/**
  `apply_edits_with` (src/text.rs): a batch of edits, all resolved against the
  original text, applied in one forward pass. The reference it is proved
  against patches the text from back to front, one edit at a time.
 */
module Edits {
  import opened Strings
  import opened Text
  import opened Wrappers
  import LineIndex
  import Sorting

  datatype Range = Range(start: Position, end: Position)

  datatype TextEdit = TextEdit(range: Range, newText: Bytes)

  /** An edit's byte range, with its place in the input. */
  datatype Resolved = Resolved(start: nat, end: nat, order: nat)

  datatype EditError = EndBeforeStart(order: nat) | Overlap

  predicate TextsValid(edits: seq<TextEdit>) {
    forall i :: 0 <= i < |edits| ==> Valid(edits[i].newText)
  }

  function ResolveOne(text: Bytes, edit: TextEdit, order: nat, enc: Encoding): Resolved {
    Resolved(PositionToOffset(text, edit.range.start, enc), PositionToOffset(text, edit.range.end, enc), order)
  }

  function ResolveAll(text: Bytes, edits: seq<TextEdit>, enc: Encoding): seq<Resolved> {
    seq(|edits|, i requires 0 <= i < |edits| => ResolveOne(text, edits[i], i, enc))
  }

  // ----- document order

  predicate KeyLeq(a: Resolved, b: Resolved) {
    a.start < b.start || (a.start == b.start && a.order <= b.order)
  }

  lemma KeysAreTotal()
    ensures Sorting.Total(KeyLeq)
  {
  }

  predicate Sorted(rs: seq<Resolved>) {
    Sorting.SortedBy(rs, KeyLeq)
  }

  /** Stable by construction: equal starts are ordered by their place in the input. */
  function SortByKey(rs: seq<Resolved>): (sorted: seq<Resolved>)
    ensures multiset(sorted) == multiset(rs) && |sorted| == |rs|
  {
    Sorting.Sort(rs, KeyLeq)
  }

  // ----- when a batch is accepted, and what it yields

  predicate NoneInverted(rs: seq<Resolved>) {
    forall i :: 0 <= i < |rs| ==> rs[i].start <= rs[i].end
  }

  /** No edit starts before an earlier one, in document order, has ended. */
  predicate AllDisjoint(rs: seq<Resolved>) {
    forall i, j :: 0 <= i < j < |rs| ==> rs[i].end <= rs[j].start
  }

  /** A resolved edit's range lies in the text, on character boundaries, and its text exists. */
  predicate InText(r: Resolved, text: Bytes, edits: seq<TextEdit>) {
    r.start <= r.end <= |text| && IsBoundary(text, r.start) && IsBoundary(text, r.end) && r.order < |edits|
  }

  predicate AllInText(rs: seq<Resolved>, text: Bytes, edits: seq<TextEdit>) {
    forall i :: 0 <= i < |rs| ==> InText(rs[i], text, edits)
  }

  predicate Accepted(text: Bytes, edits: seq<TextEdit>, enc: Encoding) {
    var rs := ResolveAll(text, edits, enc);
    NoneInverted(rs) && AllDisjoint(SortByKey(rs))
  }

  function Patch(text: Bytes, start: nat, end: nat, newText: Bytes): Bytes
    requires start <= end <= |text|
  {
    text[..start] + newText + text[end..]
  }

  /** The reference: patch the last edit first, then the one before it, and so on. */
  function BackToFront(text: Bytes, rs: seq<Resolved>, edits: seq<TextEdit>): Bytes
    requires forall i :: 0 <= i < |rs| ==> rs[i].start <= rs[i].end <= |text| && rs[i].order < |edits|
    requires AllDisjoint(rs)
    decreases |rs|
  {
    if rs == [] then text
    else
      var last := rs[|rs| - 1];
      var rest := rs[..|rs| - 1];
      var patched := Patch(text, last.start, last.end, edits[last.order].newText);
      assert forall i :: 0 <= i < |rest| ==> rest[i].end <= last.start <= |patched|;
      BackToFront(patched, rest, edits)
  }

  /** What the forward pass still has to write when it stands at `cursor`. */
  function Forward(text: Bytes, rs: seq<Resolved>, edits: seq<TextEdit>, cursor: nat): Bytes
    requires cursor <= |text|
    requires forall i :: 0 <= i < |rs| ==> cursor <= rs[i].start <= rs[i].end <= |text| && rs[i].order < |edits|
    requires AllDisjoint(rs)
    decreases |rs|
  {
    if rs == [] then text[cursor..]
    else
      text[cursor..rs[0].start] + edits[rs[0].order].newText + Forward(text, rs[1..], edits, rs[0].end)
  }

  /** What a patch leaves from any point before it. */
  lemma PatchedTail(text: Bytes, start: nat, end: nat, newText: Bytes, cursor: nat)
    requires cursor <= start <= end <= |text|
    ensures Patch(text, start, end, newText)[cursor..] == text[cursor..start] + newText + text[end..]
    ensures forall k :: cursor <= k <= start ==> Patch(text, start, end, newText)[cursor..k] == text[cursor..k]
  {
  }

  /** Patching the last edit beforehand leaves the rest of the forward pass as it was. */
  lemma {:induction false} ForwardSnoc(text: Bytes, rs: seq<Resolved>, edits: seq<TextEdit>, cursor: nat)
    requires cursor <= |text| && rs != [] && AllDisjoint(rs)
    requires forall i :: 0 <= i < |rs| ==> cursor <= rs[i].start <= rs[i].end <= |text| && rs[i].order < |edits|
    ensures var last := rs[|rs| - 1];
      var patched := Patch(text, last.start, last.end, edits[last.order].newText);
      && (forall i :: 0 <= i < |rs| - 1 ==> rs[i].end <= |patched|) && cursor <= |patched|
      && Forward(text, rs, edits, cursor) == Forward(patched, rs[..|rs| - 1], edits, cursor)
    decreases |rs|
  {
    var last := rs[|rs| - 1];
    var patched := Patch(text, last.start, last.end, edits[last.order].newText);
    hide Patch;
    PatchedTail(text, last.start, last.end, edits[last.order].newText, cursor);
    if |rs| == 1 {
      assert rs[1..] == [] && rs[..0] == [];
    } else {
      ForwardSnoc(text, rs[1..], edits, rs[0].end);
      assert rs[1..][..|rs| - 2] == rs[..|rs| - 1][1..];
    }
  }

  /** One forward pass writes the same text as patching from back to front. */
  lemma {:induction false} ForwardIsBackToFront(text: Bytes, rs: seq<Resolved>, edits: seq<TextEdit>)
    requires forall i :: 0 <= i < |rs| ==> rs[i].start <= rs[i].end <= |text| && rs[i].order < |edits|
    requires AllDisjoint(rs)
    ensures Forward(text, rs, edits, 0) == BackToFront(text, rs, edits)
    decreases |rs|
  {
    if rs != [] {
      ForwardSnoc(text, rs, edits, 0);
      var last := rs[|rs| - 1];
      ForwardIsBackToFront(Patch(text, last.start, last.end, edits[last.order].newText), rs[..|rs| - 1], edits);
    }
  }

  function Removed(rs: seq<Resolved>): int {
    if rs == [] then 0 else rs[0].end - rs[0].start + Removed(rs[1..])
  }

  function Inserted(rs: seq<Resolved>, edits: seq<TextEdit>): nat
    requires forall i :: 0 <= i < |rs| ==> rs[i].order < |edits|
  {
    if rs == [] then 0 else |edits[rs[0].order].newText| + Inserted(rs[1..], edits)
  }

  lemma {:induction false} ForwardLength(text: Bytes, rs: seq<Resolved>, edits: seq<TextEdit>, cursor: nat)
    requires cursor <= |text| && AllDisjoint(rs)
    requires forall i :: 0 <= i < |rs| ==> cursor <= rs[i].start <= rs[i].end <= |text| && rs[i].order < |edits|
    ensures |Forward(text, rs, edits, cursor)| == |text| - cursor - Removed(rs) + Inserted(rs, edits)
    decreases |rs|
  {
    if rs != [] {
      ForwardLength(text, rs[1..], edits, rs[0].end);
    }
  }

  /** Every piece the pass writes begins and ends on a character boundary, so the output is text. */
  lemma {:induction false} ForwardValid(text: Bytes, rs: seq<Resolved>, edits: seq<TextEdit>, cursor: nat)
    requires Valid(text) && TextsValid(edits) && AllDisjoint(rs) && AllInText(rs, text, edits)
    requires cursor <= |text| && IsBoundary(text, cursor)
    requires forall i :: 0 <= i < |rs| ==> cursor <= rs[i].start
    ensures Valid(Forward(text, rs, edits, cursor))
    decreases |rs|
  {
    hide HeadWidth, Valid;
    if rs == [] {
      BoundaryIsValidCut(text, cursor);
    } else {
      ForwardValid(text, rs[1..], edits, rs[0].end);
      SliceValid(text, cursor, rs[0].start);
      ValidConcat(text[cursor..rs[0].start], edits[rs[0].order].newText);
      ValidConcat(text[cursor..rs[0].start] + edits[rs[0].order].newText, Forward(text, rs[1..], edits, rs[0].end));
    }
  }

  // ----- facts about resolved batches

  lemma SortedInText(text: Bytes, edits: seq<TextEdit>, enc: Encoding)
    requires Valid(text) && NoneInverted(ResolveAll(text, edits, enc))
    ensures var sorted := SortByKey(ResolveAll(text, edits, enc));
      Sorted(sorted) && |sorted| == |edits| && AllInText(sorted, text, edits)
  {
    var rs := ResolveAll(text, edits, enc);
    KeysAreTotal();
    Sorting.SortSorts(rs, KeyLeq);
    var sorted := SortByKey(rs);
    forall i | 0 <= i < |sorted| ensures InText(sorted[i], text, edits) {
      assert sorted[i] in multiset(sorted);
      assert sorted[i] in rs;
      var j :| 0 <= j < |rs| && rs[j] == sorted[i];
      PositionLandsOnBoundary(text, edits[j].range.start, enc);
      PositionLandsOnBoundary(text, edits[j].range.end, enc);
    }
  }

  /** Comparing neighbours is enough: if no neighbours overlap, no two edits do. */
  lemma {:induction false} NeighboursSuffice(rs: seq<Resolved>, i: nat, j: nat)
    requires NoneInverted(rs) && i < j < |rs|
    requires forall k :: 0 <= k < |rs| - 1 ==> rs[k].end <= rs[k + 1].start
    ensures rs[i].end <= rs[j].start
  {
    if i + 1 < j {
      NeighboursSuffice(rs, i, j - 1);
    }
  }

  // ----- every edit has its own place in the input

  predicate DistinctOrders(rs: seq<Resolved>) {
    forall i, j :: 0 <= i < j < |rs| ==> rs[i].order != rs[j].order
  }

  lemma {:induction false} InsertDistinct(x: Resolved, rs: seq<Resolved>)
    requires DistinctOrders(rs) && forall i :: 0 <= i < |rs| ==> rs[i].order != x.order
    ensures DistinctOrders(Sorting.Insert(x, rs, KeyLeq))
    decreases |rs|
  {
    if rs != [] && !KeyLeq(x, rs[0]) {
      InsertDistinct(x, rs[1..]);
      var rest := Sorting.Insert(x, rs[1..], KeyLeq);
      forall i | 0 <= i < |rest| ensures rest[i].order != rs[0].order {
        assert rest[i] in multiset(rest);
        assert rest[i] == x || rest[i] in rs[1..];
      }
    }
  }

  lemma {:induction false} SortDistinct(rs: seq<Resolved>)
    requires DistinctOrders(rs)
    ensures DistinctOrders(Sorting.Sort(rs, KeyLeq))
    decreases |rs|
  {
    if rs != [] {
      SortDistinct(rs[1..]);
      var rest := Sorting.Sort(rs[1..], KeyLeq);
      forall i | 0 <= i < |rest| ensures rest[i].order != rs[0].order {
        assert rest[i] in multiset(rest);
        assert rest[i] in rs[1..];
      }
      InsertDistinct(rs[0], rest);
    }
  }

  lemma SortedDistinct(text: Bytes, edits: seq<TextEdit>, enc: Encoding)
    ensures DistinctOrders(SortByKey(ResolveAll(text, edits, enc)))
  {
    SortDistinct(ResolveAll(text, edits, enc));
  }

  // ----- acceptance and order, without sorting

  /** By start, and among equal starts in the order given. */
  predicate InDocumentOrder(rs: seq<Resolved>) {
    forall p, q :: 0 <= p < q < |rs| ==>
      rs[p].start < rs[q].start || (rs[p].start == rs[q].start && rs[p].order < rs[q].order)
  }

  /**
    No edit starts inside another, and of two that start together the one given
    first is empty.
   */
  predicate Compatible(rs: seq<Resolved>) {
    && (forall i, j :: 0 <= i < |rs| && 0 <= j < |rs| && rs[i].start < rs[j].start ==> rs[i].end <= rs[j].start)
    && (forall i, j :: 0 <= i < j < |rs| && rs[i].start == rs[j].start ==> rs[i].end == rs[i].start)
  }

  predicate NumberedInOrder(rs: seq<Resolved>) {
    forall i :: 0 <= i < |rs| ==> rs[i].order == i
  }

  lemma SortsIntoDocumentOrder(rs: seq<Resolved>)
    requires NumberedInOrder(rs)
    ensures InDocumentOrder(SortByKey(rs))
  {
    KeysAreTotal();
    Sorting.SortSorts(rs, KeyLeq);
    SortDistinct(rs);
    var sorted := SortByKey(rs);
    forall p, q | 0 <= p < q < |sorted|
      ensures sorted[p].start < sorted[q].start || (sorted[p].start == sorted[q].start && sorted[p].order < sorted[q].order)
    {
      assert KeyLeq(sorted[p], sorted[q]);
    }
  }

  /** A permutation in document order has every edit, at its own place in the order. */
  lemma SortedMembers(rs: seq<Resolved>, sorted: seq<Resolved>)
    requires NumberedInOrder(rs) && multiset(sorted) == multiset(rs)
    ensures forall p :: 0 <= p < |sorted| ==> sorted[p].order < |rs| && rs[sorted[p].order] == sorted[p]
    ensures forall i :: 0 <= i < |rs| ==> rs[i] in sorted
  {
    forall p | 0 <= p < |sorted| ensures sorted[p].order < |rs| && rs[sorted[p].order] == sorted[p] {
      assert sorted[p] in multiset(sorted);
      assert sorted[p] in rs;
    }
    forall i | 0 <= i < |rs| ensures rs[i] in sorted {
      assert rs[i] in multiset(rs);
    }
  }

  lemma DisjointIsCompatible(rs: seq<Resolved>, sorted: seq<Resolved>)
    requires NumberedInOrder(rs) && multiset(sorted) == multiset(rs) && InDocumentOrder(sorted)
    requires NoneInverted(rs) && AllDisjoint(sorted)
    ensures Compatible(rs)
  {
    SortedMembers(rs, sorted);
    forall i, j | 0 <= i < |rs| && 0 <= j < |rs| && i != j
        && (rs[i].start < rs[j].start || (rs[i].start == rs[j].start && i < j))
      ensures rs[i].end <= rs[j].start
    {
      var p :| 0 <= p < |sorted| && sorted[p] == rs[i];
      var q :| 0 <= q < |sorted| && sorted[q] == rs[j];
      assert p < q;
    }
  }

  lemma CompatibleIsDisjoint(rs: seq<Resolved>, sorted: seq<Resolved>)
    requires NumberedInOrder(rs) && multiset(sorted) == multiset(rs) && InDocumentOrder(sorted)
    requires NoneInverted(rs) && Compatible(rs)
    ensures AllDisjoint(sorted)
  {
    SortedMembers(rs, sorted);
  }

  /**
    Which batches are accepted, told on the edits as given: none is inverted,
    none starts inside another, and of two that start together the first is empty.
   */
  lemma AcceptedExactly(text: Bytes, edits: seq<TextEdit>, enc: Encoding)
    ensures var rs := ResolveAll(text, edits, enc);
      && (Accepted(text, edits, enc) <==> NoneInverted(rs) && Compatible(rs))
      && InDocumentOrder(SortByKey(rs))
  {
    hide PositionToOffset;
    var rs := ResolveAll(text, edits, enc);
    SortsIntoDocumentOrder(rs);
    hide ResolveAll, SortByKey, Compatible;
    if NoneInverted(rs) {
      if AllDisjoint(SortByKey(rs)) {
        DisjointIsCompatible(rs, SortByKey(rs));
      }
      if Compatible(rs) {
        CompatibleIsDisjoint(rs, SortByKey(rs));
      }
    }
  }

  // ----- the operation

  /** The byte ranges of the edits in input order, or the first edit whose range is inverted. */
  method Resolve(text: Bytes, edits: seq<TextEdit>, enc: Encoding) returns (result: Result<seq<Resolved>, EditError>)
    ensures var all := ResolveAll(text, edits, enc);
      match result
      case Ok(rs) => rs == all && NoneInverted(all)
      case Err(e) =>
        && e.EndBeforeStart? && e.order < |all|
        && all[e.order].start > all[e.order].end && NoneInverted(all[..e.order])
  {
    var index := LineIndex.New(text);
    var resolved: seq<Resolved> := [];
    ghost var all := ResolveAll(text, edits, enc);
    hide PositionToOffset;
    for order := 0 to |edits|
      invariant resolved == all[..order] && NoneInverted(resolved)
    {
      LineIndex.IndexAgreesOnOffsets(text, edits[order].range.start, enc);
      LineIndex.IndexAgreesOnOffsets(text, edits[order].range.end, enc);
      var start := index.PositionToOffset(text, edits[order].range.start, enc);
      var end := index.PositionToOffset(text, edits[order].range.end, enc);
      if start > end {
        return Err(EndBeforeStart(order));
      }
      resolved := resolved + [Resolved(start, end, order)];
    }
    result := Ok(resolved);
  }

  /** Whether some edit starts before its predecessor in document order has ended. */
  method AnyOverlap(rs: seq<Resolved>) returns (overlap: bool)
    requires NoneInverted(rs)
    ensures overlap <==> !AllDisjoint(rs)
  {
    var k := 0;
    while k + 1 < |rs|
      invariant forall i :: 0 <= i < k && i + 1 < |rs| ==> rs[i].end <= rs[i + 1].start
    {
      if rs[k + 1].start < rs[k].end {
        return true;
      }
      k := k + 1;
    }
    forall i, j | 0 <= i < j < |rs| ensures rs[i].end <= rs[j].start {
      NeighboursSuffice(rs, i, j);
    }
    return false;
  }

  /**
    Accepts exactly the batches with no inverted range, no edit that starts inside
    another, and only empty ones before others that start with them; then the result
    is what back-to-front patching in document order yields, and valid text.
   */
  method ApplyEditsWith(text: Bytes, edits: seq<TextEdit>, enc: Encoding) returns (result: Result<Bytes, EditError>)
    requires Fits(text) && TextsValid(edits)
    ensures var all := ResolveAll(text, edits, enc);
      && (result.Ok? <==> NoneInverted(all) && Compatible(all))
      && (result.Ok? <==> Accepted(text, edits, enc))
    ensures result.Ok? ==>
      var sorted := SortByKey(ResolveAll(text, edits, enc));
      && InDocumentOrder(sorted) && AllInText(sorted, text, edits)
      && result.value == BackToFront(text, sorted, edits)
      && |result.value| == |text| - Removed(sorted) + Inserted(sorted, edits)
      && Valid(result.value)
    ensures result.Err? ==>
      var all := ResolveAll(text, edits, enc);
      match result.error
      case EndBeforeStart(k) => k < |all| && all[k].start > all[k].end && NoneInverted(all[..k])
      case Overlap => NoneInverted(all) && !Compatible(all)
  {
    AcceptedExactly(text, edits, enc);
    hide Compatible, InDocumentOrder;
    var resolved := Resolve(text, edits, enc);
    if resolved.Err? {
      return Err(resolved.error);
    }
    SortedInText(text, edits, enc);
    hide ResolveAll, SortByKey, Valid, IsBoundary;
    var sorted := SortByKey(resolved.value);
    var overlap := AnyOverlap(sorted);
    if overlap {
      return Err(Overlap);
    }
    var out := WriteForward(text, sorted, edits);
    ForwardIsBackToFront(text, sorted, edits);
    ForwardLength(text, sorted, edits, 0);
    StartIsBoundary(text);
    ForwardValid(text, sorted, edits, 0);
    result := Ok(out);
  }

  lemma StartIsBoundary(text: Bytes)
    ensures IsBoundary(text, 0)
  {
  }

  method WriteForward(text: Bytes, resolved: seq<Resolved>, edits: seq<TextEdit>) returns (out: Bytes)
    requires AllInText(resolved, text, edits) && AllDisjoint(resolved)
    ensures out == Forward(text, resolved, edits, 0)
  {
    out := [];
    var cursor: nat := 0;
    var k := 0;
    NothingWritten(text, resolved, edits);
    hide Forward, AllInText, AllDisjoint, Written;
    while k < |resolved|
      invariant Written(text, resolved, edits, out, cursor, k)
    {
      WritesOneMore(text, resolved, edits, out, cursor, k);
      var r := resolved[k];
      out := out + text[cursor..r.start];
      out := out + edits[r.order].newText;
      cursor := r.end;
      k := k + 1;
    }
    AllWritten(text, resolved, edits, out, cursor, k);
    out := out + text[cursor..];
  }

  /** The edits before the `k`-th are written, and the text up to `cursor` with them. */
  ghost predicate Written(text: Bytes, resolved: seq<Resolved>, edits: seq<TextEdit>, out: Bytes, cursor: nat, k: nat)
    requires AllInText(resolved, text, edits) && AllDisjoint(resolved)
  {
    && k <= |resolved| && cursor <= |text|
    && AllInText(resolved[k..], text, edits) && AllDisjoint(resolved[k..])
    && (forall i :: 0 <= i < |resolved[k..]| ==> cursor <= resolved[k..][i].start)
    && out + Forward(text, resolved[k..], edits, cursor) == Forward(text, resolved, edits, 0)
  }

  lemma NothingWritten(text: Bytes, resolved: seq<Resolved>, edits: seq<TextEdit>)
    requires AllInText(resolved, text, edits) && AllDisjoint(resolved)
    ensures Written(text, resolved, edits, [], 0, 0)
  {
    hide Forward, IsBoundary;
    assert resolved[0..] == resolved;
    assert [] + Forward(text, resolved, edits, 0) == Forward(text, resolved, edits, 0);
  }

  lemma WritesOneMore(text: Bytes, resolved: seq<Resolved>, edits: seq<TextEdit>, out: Bytes, cursor: nat, k: nat)
    requires AllInText(resolved, text, edits) && AllDisjoint(resolved) && k < |resolved|
    requires Written(text, resolved, edits, out, cursor, k)
    ensures var r := resolved[k];
      && cursor <= r.start <= r.end <= |text| && r.order < |edits|
      && Written(text, resolved, edits, out + text[cursor..r.start] + edits[r.order].newText, r.end, k + 1)
  {
    hide IsBoundary;
    var rest := resolved[k..];
    var r := rest[0];
    assert rest[1..] == resolved[k + 1..];
    ForwardStep(text, rest, edits, cursor);
    hide Forward;
    Regroup(out, text[cursor..r.start], edits[r.order].newText, Forward(text, rest[1..], edits, r.end));
  }

  lemma ForwardStep(text: Bytes, rest: seq<Resolved>, edits: seq<TextEdit>, cursor: nat)
    requires rest != [] && cursor <= |text| && AllInText(rest, text, edits) && AllDisjoint(rest)
    requires forall i :: 0 <= i < |rest| ==> cursor <= rest[i].start
    ensures AllInText(rest[1..], text, edits) && AllDisjoint(rest[1..])
    ensures forall i :: 0 <= i < |rest[1..]| ==> rest[0].end <= rest[1..][i].start
    ensures Forward(text, rest, edits, cursor)
      == text[cursor..rest[0].start] + edits[rest[0].order].newText + Forward(text, rest[1..], edits, rest[0].end)
  {
    hide IsBoundary;
  }

  lemma Regroup(a: Bytes, b: Bytes, c: Bytes, d: Bytes)
    ensures a + (b + c + d) == a + b + c + d
  {
  }

  lemma AllWritten(text: Bytes, resolved: seq<Resolved>, edits: seq<TextEdit>, out: Bytes, cursor: nat, k: nat)
    requires AllInText(resolved, text, edits) && AllDisjoint(resolved) && k >= |resolved|
    requires Written(text, resolved, edits, out, cursor, k)
    ensures cursor <= |text| && out + text[cursor..] == Forward(text, resolved, edits, 0)
  {
    hide IsBoundary;
  }
}
