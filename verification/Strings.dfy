/**
  UTF-8 text as bytes (RFC 3629, section 4), the way a Rust `&str` holds it:
  which byte strings are valid, where their character boundaries are, and what
  scalar value a leading character stands for.
 */
module Strings {

  type byte = x: int | 0 <= x < 256

  type Bytes = seq<byte>

  const LF: byte := 10

  predicate Continuation(b: byte) {
    0x80 <= b <= 0xBF
  }

  /** The byte length of the well-formed character at the front of `s`, or 0 if there is none. */
  function HeadWidth(s: Bytes): (w: nat)
    requires s != []
    ensures w <= 4 && w <= |s|
  {
    var b := s[0];
    if b <= 0x7F then 1
    else if 0xC2 <= b <= 0xDF && |s| >= 2 && Continuation(s[1]) then 2
    else if 0xE0 <= b <= 0xEF && |s| >= 3 && SecondOfThree(b, s[1]) && Continuation(s[2]) then 3
    else if 0xF0 <= b <= 0xF4 && |s| >= 4 && SecondOfFour(b, s[1]) && Continuation(s[2]) && Continuation(s[3]) then 4
    else 0
  }

  predicate SecondOfThree(lead: byte, b: byte) {
    Continuation(b) && (lead == 0xE0 ==> b >= 0xA0) && (lead == 0xED ==> b <= 0x9F)
  }

  predicate SecondOfFour(lead: byte, b: byte) {
    Continuation(b) && (lead == 0xF0 ==> b >= 0x90) && (lead == 0xF4 ==> b <= 0x8F)
  }

  predicate Valid(s: Bytes)
    decreases |s|
  {
    s == [] || (HeadWidth(s) > 0 && Valid(s[HeadWidth(s)..]))
  }

  /**
    How many bytes the character at the front of `s` takes. In valid text this
    is its UTF-8 width; a byte that starts no character counts as one by itself.
   */
  function Width(s: Bytes): (w: nat)
    requires s != []
    ensures 1 <= w <= 4 && w <= |s|
  {
    if HeadWidth(s) > 0 then HeadWidth(s) else 1
  }

  /** The scalar value of the character at the front of `s` (RFC 3629, section 3). */
  function Scalar(s: Bytes): nat
    requires s != []
  {
    var w := HeadWidth(s);
    var lead := s[0] as int;
    if w == 4 then (lead - 0xF0) * 0x4_0000 + Payload(s[1]) * 0x1000 + Payload(s[2]) * 0x40 + Payload(s[3])
    else if w == 3 then (lead - 0xE0) * 0x1000 + Payload(s[1]) * 0x40 + Payload(s[2])
    else if w == 2 then (lead - 0xC0) * 0x40 + Payload(s[1])
    else lead
  }

  /** The six payload bits of a continuation byte. */
  function Payload(b: byte): nat
    requires Continuation(b)
  {
    b as int - 0x80
  }

  /** Rust's `is_char_boundary`: both ends, and every byte that does not continue a character. */
  predicate IsBoundary(s: Bytes, i: nat) {
    i == 0 || i == |s| || (i < |s| && !Continuation(s[i]))
  }

  /** The largest character boundary at or before `i`. */
  function Floor(s: Bytes, i: nat): (r: nat)
    requires i <= |s|
    ensures r <= i && IsBoundary(s, r)
    ensures forall b: nat :: r < b <= i ==> !IsBoundary(s, b)
  {
    if IsBoundary(s, i) then i else Floor(s, i - 1)
  }

  // ----- the front character under prefixes and extensions

  lemma HeadOfExtension(a: Bytes, b: Bytes)
    requires a != [] && HeadWidth(a) > 0
    ensures HeadWidth(a + b) == HeadWidth(a) && Scalar(a + b) == Scalar(a)
  {
  }

  lemma HeadOfPrefix(s: Bytes, n: nat)
    requires s != [] && 0 < HeadWidth(s) <= n <= |s|
    ensures HeadWidth(s[..n]) == HeadWidth(s) && Scalar(s[..n]) == Scalar(s)
  {
  }

  /** Inside a character every byte after the first continues it. */
  lemma HeadTailContinues(s: Bytes, i: nat)
    requires s != [] && 0 < i < HeadWidth(s)
    ensures Continuation(s[i])
  {
  }

  /** The byte 0x0A only ever stands for the character '\n'. */
  lemma LineFeedIsOneByte(s: Bytes)
    requires s != [] && HeadWidth(s) > 0
    ensures Scalar(s) == 10 <==> s[0] == LF
    ensures s[0] == LF ==> HeadWidth(s) == 1
    ensures forall i :: 0 < i < HeadWidth(s) ==> s[i] != LF
  {
    forall i | 0 < i < HeadWidth(s) ensures s[i] != LF {
      HeadTailContinues(s, i);
    }
  }

  /** Four-byte characters are exactly the ones outside the Basic Multilingual Plane. */
  lemma WidthFourIsSupplementary(s: Bytes)
    requires s != []
    ensures Scalar(s) >= 0x1_0000 <==> HeadWidth(s) == 4
  {
  }

  // ----- boundaries and validity

  lemma ValidByHead(s: Bytes)
    requires s != []
    ensures Valid(s) <==> HeadWidth(s) > 0 && Valid(s[HeadWidth(s)..])
  {
  }

  lemma DropOfConcat(a: Bytes, b: Bytes, w: nat)
    requires w <= |a|
    ensures (a + b)[w..] == a[w..] + b
  {
  }

  lemma {:induction false} ValidConcat(a: Bytes, b: Bytes)
    requires Valid(a) && Valid(b)
    ensures Valid(a + b)
    decreases |a|
  {
    hide *;
    if a == [] {
      assert a + b == b;
    } else {
      ValidByHead(a);
      HeadOfExtension(a, b);
      ValidConcat(a[HeadWidth(a)..], b);
      DropOfConcat(a, b, HeadWidth(a));
      ValidByHead(a + b);
    }
  }

  /** Inside its first character a text cannot be cut. */
  lemma CutInsideHead(s: Bytes, i: nat)
    requires s != [] && 0 < i < HeadWidth(s)
    ensures !IsBoundary(s, i) && !Valid(s[i..])
  {
    HeadTailContinues(s, i);
    hide HeadWidth;
    HeadIsNoContinuation(s[i..]);
    assert s[i..][0] == s[i];
  }

  lemma HeadIsNoContinuation(s: Bytes)
    requires s != []
    ensures Valid(s) ==> HeadWidth(s) > 0 && !Continuation(s[0])
  {
  }

  /** Where a character can begin, or at the end, the boundaries of what follows are the text's. */
  lemma TailBoundary(s: Bytes, w: nat, b: nat)
    requires w <= b <= |s| && IsBoundary(s, w)
    ensures IsBoundary(s, b) <==> IsBoundary(s[w..], b - w)
  {
    assert b < |s| ==> s[w..][b - w] == s[b];
  }

  lemma HeadIsBoundary(s: Bytes)
    requires Valid(s) && s != []
    ensures HeadWidth(s) > 0 && Valid(s[HeadWidth(s)..]) && IsBoundary(s, HeadWidth(s))
  {
    var w := HeadWidth(s);
    hide HeadWidth;
    if w < |s| {
      HeadIsNoContinuation(s[w..]);
      assert s[w..][0] == s[w];
    }
  }

  /**
    The byte test for a boundary is the right one: cutting valid text at `i`
    leaves two valid texts exactly when `i` is a boundary.
   */
  lemma {:induction false} BoundaryIsValidCut(s: Bytes, i: nat)
    requires Valid(s) && i <= |s|
    ensures IsBoundary(s, i) <==> Valid(s[..i]) && Valid(s[i..])
    decreases |s|
  {
    if i == 0 {
      assert s[..0] == [] && s[0..] == s;
    } else if i == |s| {
      assert s[..i] == s && s[i..] == [];
    } else {
      HeadIsBoundary(s);
      var w := HeadWidth(s);
      if i < w {
        CutInsideHead(s, i);
      } else {
        BoundaryIsValidCut(s[w..], i - w);
        TailBoundary(s, w, i);
        CutPastHead(s, i);
      }
    }
  }

  lemma CutPastHead(s: Bytes, i: nat)
    requires s != [] && 0 < HeadWidth(s) <= i <= |s|
    ensures var w := HeadWidth(s);
      && s[w..][i - w..] == s[i..]
      && (Valid(s[..i]) <==> Valid(s[w..][..i - w]))
  {
    HeadOfPrefix(s, i);
    var w := HeadWidth(s);
    hide HeadWidth;
    assert s[..i][w..] == s[w..][..i - w];
  }

  lemma WidthOfHead(s: Bytes)
    requires s != [] && HeadWidth(s) > 0
    ensures Width(s) == HeadWidth(s)
  {
    hide HeadWidth;
  }

  /** Past the first character, the boundaries of `s` are those of what follows it. */
  lemma BoundaryStep(s: Bytes)
    requires Valid(s) && s != []
    ensures Width(s) == HeadWidth(s) > 0 && Valid(s[Width(s)..])
    ensures forall b: nat :: 0 < b < Width(s) ==> !IsBoundary(s, b)
    ensures forall b: nat :: Width(s) <= b <= |s| ==> (IsBoundary(s, b) <==> IsBoundary(s[Width(s)..], b - Width(s)))
  {
    hide *;
    HeadIsBoundary(s);
    WidthOfHead(s);
    NoneInsideHead(s, Width(s));
    TailBoundaries(s, Width(s));
  }

  lemma NoneInsideHead(s: Bytes, w: nat)
    requires s != [] && w <= HeadWidth(s)
    ensures forall b: nat :: 0 < b < w ==> !IsBoundary(s, b)
  {
    forall b: nat | 0 < b < w ensures !IsBoundary(s, b) {
      CutInsideHead(s, b);
    }
  }

  lemma TailBoundaries(s: Bytes, w: nat)
    requires w <= |s| && IsBoundary(s, w)
    ensures forall b: nat :: w <= b <= |s| ==> (IsBoundary(s, b) <==> IsBoundary(s[w..], b - w))
  {
    forall b: nat | w <= b <= |s| ensures IsBoundary(s, b) <==> IsBoundary(s[w..], b - w) {
      TailBoundary(s, w, b);
    }
  }

  /** A piece of valid text between two boundaries is valid, and its boundaries are the text's. */
  lemma SliceValid(s: Bytes, lo: nat, hi: nat)
    requires Valid(s) && lo <= hi <= |s| && IsBoundary(s, lo) && IsBoundary(s, hi)
    ensures Valid(s[lo..hi]) && Valid(s[lo..]) && Valid(s[..lo])
    ensures forall k: nat :: k <= hi - lo ==> (IsBoundary(s[lo..hi], k) <==> IsBoundary(s, lo + k))
  {
    BoundaryIsValidCut(s, lo);
    BoundaryIsValidCut(s, hi);
    assert IsBoundary(s[..hi], lo);
    hide Valid, HeadWidth;
    BoundaryIsValidCut(s[..hi], lo);
    assert s[..hi][lo..] == s[lo..hi];
  }

  /** The position just after a line feed is a boundary, and so is the line feed's own. */
  lemma LineFeedBoundaries(s: Bytes, i: nat)
    requires Valid(s) && i < |s| && s[i] == LF
    ensures IsBoundary(s, i) && IsBoundary(s, i + 1)
  {
    BoundaryIsValidCut(s, i);
    var rest := s[i..];
    assert rest[0] == LF;
    assert Valid(rest[1..]);
    assert rest[1..] == s[i + 1..];
    if i + 1 < |s| {
      assert s[i + 1..][0] == s[i + 1];
    }
  }
}
