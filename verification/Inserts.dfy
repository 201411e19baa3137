/**
  Inserts that share a position (src/text.rs:192-221): in any accepted batch they
  come out together, in the order they were given, between what the edits before
  and the edits after that position make of the text.
 */
module Inserts {
  import opened Strings
  import opened Text
  import opened Edits
  import opened SequentialEdits
  import Sorting

  predicate InsertAt(r: Resolved, p: nat) {
    r.start == r.end == p
  }

  /** The inserts at `p`, in the order of the list. */
  function InsertsAt(rs: seq<Resolved>, p: nat): seq<Resolved> {
    if rs == [] then []
    else (if InsertAt(rs[0], p) then [rs[0]] else []) + InsertsAt(rs[1..], p)
  }

  /** The texts of the edits, one after the other. */
  function TextsOf(rs: seq<Resolved>, edits: seq<TextEdit>): Bytes
    requires OrdersFit(rs, edits)
  {
    if rs == [] then [] else edits[rs[0].order].newText + TextsOf(rs[1..], edits)
  }

  // ----- sorting keeps their order

  /** Putting an edit that was given before all of `rs` in its place keeps it before the other inserts there. */
  lemma {:induction false} InsertKeepsInserts(x: Resolved, rs: seq<Resolved>, p: nat)
    requires forall i :: 0 <= i < |rs| ==> x.order < rs[i].order
    ensures InsertsAt(Sorting.Insert(x, rs, KeyLeq), p) == (if InsertAt(x, p) then [x] else []) + InsertsAt(rs, p)
    decreases |rs|
  {
    if rs == [] || KeyLeq(x, rs[0]) {
      assert ([x] + rs)[1..] == rs;
    } else {
      InsertKeepsInserts(x, rs[1..], p);
      var rest := Sorting.Insert(x, rs[1..], KeyLeq);
      assert ([rs[0]] + rest)[1..] == rest;
    }
  }

  lemma {:induction false} SortKeepsInserts(rs: seq<Resolved>, p: nat)
    requires forall i, j :: 0 <= i < j < |rs| ==> rs[i].order < rs[j].order
    ensures InsertsAt(Sorting.Sort(rs, KeyLeq), p) == InsertsAt(rs, p)
    decreases |rs|
  {
    if rs != [] {
      SortKeepsInserts(rs[1..], p);
      var rest := Sorting.Sort(rs[1..], KeyLeq);
      forall i | 0 <= i < |rest| ensures rs[0].order < rest[i].order {
        assert rest[i] in multiset(rest);
        assert rest[i] in rs[1..];
      }
      InsertKeepsInserts(rs[0], rest, p);
    }
  }

  // ----- they stand together

  /** How many edits of the sorted list start before `p`. */
  function StartBefore(rs: seq<Resolved>, p: nat): (k: nat)
    ensures k <= |rs|
  {
    if rs == [] || rs[0].start >= p then 0 else 1 + StartBefore(rs[1..], p)
  }

  /** The inserts at `p` are the `n` edits from the `k`-th; those before end by `p`, those after begin there or later. */
  predicate OneRun(rs: seq<Resolved>, p: nat, k: nat, n: nat) {
    && k + n <= |rs| && rs[k..k + n] == InsertsAt(rs, p)
    && (forall i :: 0 <= i < k ==> rs[i].end <= p && !InsertAt(rs[i], p))
    && (forall i :: k + n <= i < |rs| ==> rs[i].start >= p && !InsertAt(rs[i], p))
  }

  lemma {:induction false} NoneInRest(rs: seq<Resolved>, p: nat)
    requires InsertsAt(rs, p) == []
    ensures forall i :: 0 <= i < |rs| ==> !InsertAt(rs[i], p)
    decreases |rs|
  {
    if rs != [] {
      NoneInRest(rs[1..], p);
    }
  }

  lemma {:induction false} AllAreInserts(rs: seq<Resolved>, p: nat)
    ensures forall i :: 0 <= i < |InsertsAt(rs, p)| ==> InsertAt(InsertsAt(rs, p)[i], p)
    decreases |rs|
  {
    if rs != [] {
      AllAreInserts(rs[1..], p);
    }
  }

  lemma SliceOfTail<T>(s: seq<T>, k: nat, n: nat)
    requires k + 1 + n <= |s|
    ensures s[k + 1..k + 1 + n] == s[1..][k..k + n]
  {
    var a, b := s[k + 1..k + 1 + n], s[1..][k..k + n];
    forall j | 0 <= j < n ensures a[j] == b[j] {
      assert b[j] == s[1..][k + j] == s[k + 1 + j];
    }
  }

  /** An edit before the run that is no insert at `p` moves the run one place on. */
  lemma RunSkips(rs: seq<Resolved>, p: nat, k: nat, n: nat)
    requires rs != [] && OneRun(rs[1..], p, k, n)
    requires rs[0].end <= p && !InsertAt(rs[0], p)
    ensures OneRun(rs, p, k + 1, n)
  {
    SliceOfTail(rs, k, n);
    forall i | k + 1 + n <= i < |rs| ensures rs[i].start >= p && !InsertAt(rs[i], p) {
      assert rs[i] == rs[1..][i - 1];
    }
    forall i | 0 <= i < k + 1 ensures rs[i].end <= p && !InsertAt(rs[i], p) {
      assert i > 0 ==> rs[i] == rs[1..][i - 1];
    }
  }

  /** An insert at `p` in front of the run makes it longer. */
  lemma RunGrows(rs: seq<Resolved>, p: nat, n: nat)
    requires rs != [] && OneRun(rs[1..], p, 0, n) && InsertAt(rs[0], p)
    ensures OneRun(rs, p, 0, n + 1)
  {
    assert rs[0..n + 1] == [rs[0]] + rs[1..][0..n];
    forall i | n + 1 <= i < |rs| ensures rs[i].start >= p && !InsertAt(rs[i], p) {
      assert rs[i] == rs[1..][i - 1];
    }
  }

  lemma EmptyRun(rs: seq<Resolved>, p: nat)
    requires InsertsAt(rs, p) == [] && forall i :: 0 <= i < |rs| ==> rs[i].start >= p
    ensures OneRun(rs, p, 0, 0)
  {
    NoneInRest(rs, p);
    assert rs[0..0] == [];
  }

  /** In a sorted list of disjoint edits the inserts at `p` are one run, after the edits that start before `p`. */
  lemma {:induction false} InsertsAreOneRun(rs: seq<Resolved>, p: nat)
    requires Sorted(rs) && AllDisjoint(rs) && NoneInverted(rs) && InsertsAt(rs, p) != []
    ensures OneRun(rs, p, StartBefore(rs, p), |InsertsAt(rs, p)|)
    decreases |rs|
  {
    var rest := rs[1..];
    hide OneRun;
    if InsertsAt(rest, p) == [] {
      HeadIsFirst(rs, p);
      EmptyRun(rest, p);
      RunGrows(rs, p, 0);
    } else {
      TailIsSorted(rs);
      InsertsAreOneRun(rest, p);
      HeadEndsBefore(rs, p);
      if InsertAt(rs[0], p) {
        HeadIsFirst(rs, p);
        RunGrows(rs, p, |InsertsAt(rest, p)|);
      } else {
        RunSkips(rs, p, StartBefore(rest, p), |InsertsAt(rest, p)|);
      }
    }
  }

  lemma TailIsSorted(rs: seq<Resolved>)
    requires rs != [] && Sorted(rs) && AllDisjoint(rs) && NoneInverted(rs)
    ensures Sorted(rs[1..]) && AllDisjoint(rs[1..]) && NoneInverted(rs[1..])
  {
  }

  lemma HeadIsFirst(rs: seq<Resolved>, p: nat)
    requires rs != [] && Sorted(rs) && rs[0].start >= p
    ensures forall i :: 0 <= i < |rs[1..]| ==> rs[1..][i].start >= p
    ensures StartBefore(rs[1..], p) == 0
  {
    forall i | 0 <= i < |rs[1..]| ensures rs[1..][i].start >= p {
      assert KeyLeq(rs[0], rs[i + 1]);
    }
  }

  /** An edit before an insert at `p` ends by `p`, and starts before `p` unless it is one of them. */
  lemma HeadEndsBefore(rs: seq<Resolved>, p: nat)
    requires rs != [] && AllDisjoint(rs) && NoneInverted(rs) && InsertsAt(rs[1..], p) != []
    ensures rs[0].end <= p && (rs[0].start < p || InsertAt(rs[0], p))
  {
    if rs[0].end > p {
      forall i | 0 <= i < |rs[1..]| ensures !InsertAt(rs[1..][i], p) {
        assert rs[0].end <= rs[i + 1].start;
      }
      NoneThenEmpty(rs[1..], p);
      assert false;
    }
  }

  lemma {:induction false} NoneThenEmpty(rs: seq<Resolved>, p: nat)
    requires forall i :: 0 <= i < |rs| ==> !InsertAt(rs[i], p)
    ensures InsertsAt(rs, p) == []
    decreases |rs|
  {
    if rs != [] {
      NoneThenEmpty(rs[1..], p);
    }
  }

  // ----- what is written around them

  /** Disjoint edits in document order between two offsets. */
  predicate Between(rs: seq<Resolved>, edits: seq<TextEdit>, from: nat, to: nat) {
    && from <= to && AllDisjoint(rs)
    && forall i :: 0 <= i < |rs| ==> from <= rs[i].start <= rs[i].end <= to && rs[i].order < |edits|
  }

  lemma JoinBetween(before: seq<Resolved>, after: seq<Resolved>, edits: seq<TextEdit>, from: nat, p: nat, to: nat)
    requires Between(before, edits, from, p) && Between(after, edits, p, to)
    ensures Between(before + after, edits, from, to)
  {
  }

  lemma TailBetween(rs: seq<Resolved>, edits: seq<TextEdit>, from: nat, to: nat)
    requires rs != [] && Between(rs, edits, from, to)
    ensures Between(rs[1..], edits, rs[0].end, to)
  {
  }

  /** What the forward pass writes for edits that lie in the text from the cursor on. */
  function Writes(text: Bytes, rs: seq<Resolved>, edits: seq<TextEdit>, cursor: nat): Bytes
    requires Between(rs, edits, cursor, |text|)
  {
    Forward(text, rs, edits, cursor)
  }

  lemma WritesFirst(text: Bytes, rs: seq<Resolved>, edits: seq<TextEdit>, cursor: nat)
    requires rs != [] && Between(rs, edits, cursor, |text|)
    ensures Between(rs[1..], edits, rs[0].end, |text|)
    ensures Writes(text, rs, edits, cursor)
      == text[cursor..rs[0].start] + edits[rs[0].order].newText + Writes(text, rs[1..], edits, rs[0].end)
  {
    TailBetween(rs, edits, cursor, |text|);
  }

  /** The pass over the edits before `p` only needs the text before `p`. */
  lemma {:induction false} WritesInParts(
    text: Bytes, before: seq<Resolved>, after: seq<Resolved>, edits: seq<TextEdit>, p: nat, cursor: nat)
    requires p <= |text| && Between(before, edits, cursor, p) && Between(after, edits, p, |text|)
    ensures Between(before + after, edits, cursor, |text|) && Between(before, edits, cursor, |text[..p]|)
    ensures Writes(text, before + after, edits, cursor)
      == Writes(text[..p], before, edits, cursor) + Writes(text, after, edits, p)
    decreases |before|
  {
    JoinBetween(before, after, edits, cursor, p, |text|);
    if before == [] {
      assert before + after == after;
      WritesGap(text, after, edits, p, cursor);
    } else {
      TailBetween(before, edits, cursor, p);
      WritesInParts(text, before[1..], after, edits, p, before[0].end);
      WritesFirst(text, before + after, edits, cursor);
      WritesFirst(text[..p], before, edits, cursor);
      assert (before + after)[1..] == before[1..] + after;
      hide Writes, Between;
      assert text[cursor..before[0].start] == text[..p][cursor..before[0].start];
      Regroup(
        text[cursor..before[0].start] + edits[before[0].order].newText,
        Writes(text[..p], before[1..], edits, before[0].end), Writes(text, after, edits, p));
    }
  }

  lemma Regroup(a: Bytes, b: Bytes, c: Bytes)
    ensures a + (b + c) == a + b + c
  {
  }

  lemma WritesGap(text: Bytes, after: seq<Resolved>, edits: seq<TextEdit>, p: nat, cursor: nat)
    requires cursor <= p <= |text| && Between(after, edits, p, |text|)
    ensures Between(after, edits, cursor, |text|)
    ensures Writes(text, after, edits, cursor) == Writes(text[..p], [], edits, cursor) + Writes(text, after, edits, p)
  {
    if after == [] {
      assert text[cursor..] == text[..p][cursor..] + text[p..];
    } else {
      WritesFirst(text, after, edits, p);
      WritesFirst(text, after, edits, cursor);
      assert Writes(text[..p], [], edits, cursor) == text[..p][cursor..];
      hide Writes, Between;
      var s := after[0].start;
      assert text[cursor..s] == text[..p][cursor..] + text[p..s];
      Regroup(text[..p][cursor..], text[p..s], edits[after[0].order].newText);
      Regroup(text[..p][cursor..], text[p..s] + edits[after[0].order].newText, Writes(text, after[1..], edits, after[0].end));
    }
  }

  /** A run of inserts at the end of a text writes their texts. */
  lemma {:induction false} WritesOfRun(text: Bytes, run: seq<Resolved>, edits: seq<TextEdit>)
    requires Between(run, edits, |text|, |text|)
    ensures Writes(text, run, edits, |text|) == TextsOf(run, edits)
    decreases |run|
  {
    if run != [] {
      WritesFirst(text, run, edits, |text|);
      WritesOfRun(text, run[1..], edits);
      hide Writes;
      assert text[|text|..|text|] == [];
    }
  }

  // ----- the whole batch

  lemma PartsBetween(text: Bytes, sorted: seq<Resolved>, edits: seq<TextEdit>, p: nat, k: nat, n: nat)
    requires AllInText(sorted, text, edits) && AllDisjoint(sorted) && p <= |text| && OneRun(sorted, p, k, n)
    ensures Between(sorted[..k], edits, 0, p) && Between(sorted[k + n..], edits, p, |text|)
    ensures Between(sorted[k..k + n], edits, p, p)
  {
    hide IsBoundary, InsertsAt;
    AllAreInserts(sorted, p);
    assert forall i :: 0 <= i < |sorted| ==> InText(sorted[i], text, edits);
  }

  /** Three neighbouring parts are written one after the other. */
  lemma WritesThreeParts(
    text: Bytes, before: seq<Resolved>, run: seq<Resolved>, after: seq<Resolved>, edits: seq<TextEdit>, p: nat)
    requires p <= |text| && Between(before, edits, 0, p) && Between(run, edits, p, p) && Between(after, edits, p, |text|)
    ensures Between(before + (run + after), edits, 0, |text|) && Between(before, edits, 0, |text[..p]|)
    ensures Writes(text, before + (run + after), edits, 0)
      == Writes(text[..p], before, edits, 0) + TextsOf(run, edits) + Writes(text, after, edits, p)
  {
    JoinBetween(run, after, edits, p, p, |text|);
    WritesInParts(text, before, run + after, edits, p, 0);
    WritesInParts(text, run, after, edits, p, p);
    WritesOfRun(text[..p], run, edits);
    hide Writes, TextsOf;
    Regroup(Writes(text[..p], before, edits, 0), TextsOf(run, edits), Writes(text, after, edits, p));
  }

  /**
    The batch is what the edits `before` make of the text up to `p`, then the
    texts of `run` one after the other, then what the edits `after` make of the rest.
   */
  ghost predicate InParts(
    text: Bytes, sorted: seq<Resolved>, before: seq<Resolved>, run: seq<Resolved>, after: seq<Resolved>,
    edits: seq<TextEdit>, p: nat)
    requires AllDisjoint(sorted) && AllInText(sorted, text, edits)
  {
    && p <= |text| && OrdersFit(run, edits)
    && Between(before, edits, 0, |text[..p]|) && Between(after, edits, p, |text|)
    && BackToFront(text, sorted, edits)
       == Writes(text[..p], before, edits, 0) + TextsOf(run, edits) + Writes(text, after, edits, p)
  }

  /** The inserts at `p` stand together in document order, and the batch is written in parts around them. */
  ghost predicate RunIsWritten(text: Bytes, sorted: seq<Resolved>, edits: seq<TextEdit>, p: nat)
    requires AllDisjoint(sorted) && AllInText(sorted, text, edits)
  {
    var run := InsertsAt(sorted, p);
    var k := StartBefore(sorted, p);
    && k + |run| <= |sorted| && sorted[k..k + |run|] == run
    && InParts(text, sorted, sorted[..k], run, sorted[k + |run|..], edits, p)
  }

  /**
    In every accepted batch that inserts at `p`, whatever else it edits, the
    inserts at `p` come out in input order, together, around them what the edits
    before and after `p` make of the rest.
   */
  lemma InsertsKeepTheirOrder(text: Bytes, edits: seq<TextEdit>, p: nat, enc: Encoding)
    requires Fits(text) && Accepted(text, edits, enc)
    requires InsertsAt(ResolveAll(text, edits, enc), p) != []
    ensures var sorted := SortByKey(ResolveAll(text, edits, enc));
      && InsertsAt(sorted, p) == InsertsAt(ResolveAll(text, edits, enc), p)
      && AllInText(sorted, text, edits) && RunIsWritten(text, sorted, edits, p)
  {
    var rs := ResolveAll(text, edits, enc);
    SortKeepsInserts(rs, p);
    SortedInText(text, edits, enc);
    hide Valid, IsBoundary, PositionToOffset, SortByKey, ResolveAll, InsertsAt, TextsOf, RunIsWritten;
    AroundTheRun(text, SortByKey(rs), edits, p);
  }

  lemma AroundTheRun(text: Bytes, sorted: seq<Resolved>, edits: seq<TextEdit>, p: nat)
    requires Sorted(sorted) && AllDisjoint(sorted) && AllInText(sorted, text, edits) && InsertsAt(sorted, p) != []
    ensures RunIsWritten(text, sorted, edits, p)
  {
    var k, run := StartBefore(sorted, p), InsertsAt(sorted, p);
    RunBetween(text, sorted, edits, p, k, run);
    hide InsertsAt, StartBefore, InParts, Between, AllInText, AllDisjoint, Sorted;
    BatchInParts(text, sorted, sorted[..k], run, sorted[k + |run|..], edits, p);
  }

  lemma RunBetween(text: Bytes, sorted: seq<Resolved>, edits: seq<TextEdit>, p: nat, k: nat, run: seq<Resolved>)
    requires Sorted(sorted) && AllDisjoint(sorted) && AllInText(sorted, text, edits)
    requires run == InsertsAt(sorted, p) && run != [] && k == StartBefore(sorted, p)
    ensures p <= |text| && k + |run| <= |sorted| && sorted[k..k + |run|] == run
    ensures Between(sorted[..k], edits, 0, p) && Between(run, edits, p, p)
    ensures Between(sorted[k + |run|..], edits, p, |text|)
  {
    hide IsBoundary, InsertsAt, StartBefore, Between;
    assert NoneInverted(sorted);
    InsertsAreOneRun(sorted, p);
    hide Sorted, AllDisjoint, AllInText, NoneInverted;
    RunInText(text, sorted, edits, p, k, |run|);
    PartsBetween(text, sorted, edits, p, k, |run|);
  }

  lemma BatchInParts(
    text: Bytes, sorted: seq<Resolved>, before: seq<Resolved>, run: seq<Resolved>, after: seq<Resolved>,
    edits: seq<TextEdit>, p: nat)
    requires AllInText(sorted, text, edits) && AllDisjoint(sorted) && p <= |text| && |before| + |run| <= |sorted|
    requires before == sorted[..|before|] && after == sorted[|before| + |run|..]
    requires run == sorted[|before|..|before| + |run|]
    requires Between(before, edits, 0, p) && Between(run, edits, p, p) && Between(after, edits, p, |text|)
    ensures InParts(text, sorted, before, run, after, edits, p)
  {
    hide IsBoundary, TextsOf;
    ThreeSlices(sorted, |before|, |run|);
    WritesThreeParts(text, before, run, after, edits, p);
    WritesIsBackToFront(text, sorted, edits);
  }

  lemma WritesIsBackToFront(text: Bytes, rs: seq<Resolved>, edits: seq<TextEdit>)
    requires Between(rs, edits, 0, |text|)
    ensures Writes(text, rs, edits, 0) == BackToFront(text, rs, edits)
  {
    ForwardIsBackToFront(text, rs, edits);
  }

  lemma RunInText(text: Bytes, sorted: seq<Resolved>, edits: seq<TextEdit>, p: nat, k: nat, n: nat)
    requires AllInText(sorted, text, edits) && OneRun(sorted, p, k, n) && n > 0
    ensures p <= |text|
  {
    hide InsertsAt, IsBoundary;
    AllAreInserts(sorted, p);
    assert sorted[k] == sorted[k..k + n][0] && InText(sorted[k], text, edits);
  }

  lemma ThreeSlices<T>(s: seq<T>, k: nat, n: nat)
    requires k + n <= |s|
    ensures s == s[..k] + (s[k..k + n] + s[k + n..])
  {
  }
}
