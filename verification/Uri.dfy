/**
  `Uri` normalization (src/lsp/base.rs): the scheme in lower case, the hex
  digits of percent escapes in upper case (RFC 3986, sections 6.2.2.1 and 2.1).
 */
module Uri {
  import opened Strings
  import opened Ascii

  /** `ALPHA *( ALPHA / DIGIT / "+" / "-" / "." )`; a byte past ASCII is none of these. */
  predicate ValidScheme(s: Bytes) {
    s != [] && IsAlpha(s[0]) && forall i :: 0 < i < |s| ==> SchemeByte(s[i])
  }

  predicate SchemeByte(b: byte) {
    IsAlnum(b) || b == 0x2B || b == 0x2D || b == 0x2E
  }

  /** The length of the scheme before the first colon, or 0 without a valid one. */
  function SchemeLen(uri: Bytes): (n: nat)
    ensures n < |uri| || n == 0
  {
    var colon := IndexOf(uri, COLON);
    if colon < |uri| && ValidScheme(uri[..colon]) then colon else 0
  }

  const UPPER: Bytes := Lit("ABCDEFGHIJKLMNOPQRSTUVWXYZ")
  const LOWER: Bytes := Lit("abcdefghijklmnopqrstuvwxyz")
  const LETTERS: Bytes := UPPER + LOWER
  const DIGITS: Bytes := Lit("0123456789")

  lemma UpperAre(b: byte)
    ensures IsUpper(b) <==> b in UPPER
  {
    if IsUpper(b) {
      assert UPPER[b - 0x41] == b;
    }
  }

  lemma LowerAre(b: byte)
    ensures IsLower(b) <==> b in LOWER
  {
    if IsLower(b) {
      assert LOWER[b - 0x61] == b;
    }
  }

  lemma DigitsAre(b: byte)
    ensures IsDigit(b) <==> b in DIGITS
  {
    if IsDigit(b) {
      assert DIGITS[b - 0x30] == b;
    }
  }

  lemma HexDigitsAre(b: byte)
    ensures IsHex(b) <==> b in DIGITS || b in Lit("ABCDEFabcdef")
  {
    DigitsAre(b);
    var hex := Lit("ABCDEFabcdef");
    if 0x41 <= b <= 0x46 {
      assert hex[b - 0x41] == b;
    } else if 0x61 <= b <= 0x66 {
      assert hex[6 + (b - 0x61)] == b;
    }
    hide IsDigit;
  }

  /** The letters and the digits, one by one. */
  lemma ClassesAre(b: byte)
    ensures IsAlpha(b) <==> b in LETTERS
    ensures IsDigit(b) <==> b in DIGITS
  {
    UpperAre(b);
    LowerAre(b);
    DigitsAre(b);
    hide IsUpper, IsLower, IsDigit;
  }

  /** The bytes a scheme may hold after its first letter (RFC 3986, section 3.1). */
  lemma SchemeBytesAre(b: byte)
    ensures SchemeByte(b) <==> b in LETTERS + DIGITS + Lit("+-.")
  {
    ClassesAre(b);
    hide IsAlpha, IsDigit;
    var marks := Lit("+-.");
    assert marks[0] == 0x2B && marks[1] == 0x2D && marks[2] == 0x2E;
    assert b in LETTERS + DIGITS + marks <==> b in LETTERS || b in DIGITS || b in marks;
  }

  function UpperHex(b: byte): byte {
    if IsHex(b) then ToUpper(b) else b
  }

  /** Upper-case up to two hex digits after each percent sign met when skipping three bytes past each. */
  function UpperEscapes(s: Bytes): (r: Bytes)
    ensures |r| == |s|
    decreases |s|
  {
    if s == [] then []
    else if s[0] != PERCENT then [s[0]] + UpperEscapes(s[1..])
    else if |s| == 1 then s
    else if |s| == 2 then [s[0], UpperHex(s[1])]
    else [s[0], UpperHex(s[1]), UpperHex(s[2])] + UpperEscapes(s[3..])
  }

  function Normalize(uri: Bytes): (r: Bytes)
    ensures |r| == |uri|
  {
    var n := SchemeLen(uri);
    LowerAll(uri[..n]) + UpperEscapes(uri[n..])
  }

  /** Byte `i` is one of the up to two bytes after a percent sign the scan stops at. */
  predicate EscapeDigit(s: Bytes, i: nat)
    decreases |s|
  {
    i < |s| &&
    if s[0] != PERCENT then i > 0 && EscapeDigit(s[1..], i - 1)
    else i == 1 || i == 2 || (i > 2 && EscapeDigit(s[3..], i - 3))
  }

  // ----- the escapes alone

  predicate SameByte(s: Bytes, i: nat, b: byte)
    requires i < |s|
  {
    s[i] == b || (EscapeDigit(s, i) && IsHex(s[i]) && IsHex(b) && ToUpper(s[i]) == ToUpper(b))
  }

  /** `UpperEscapes` identifies exactly the strings that differ in the case of escape digits. */
  lemma {:induction false} UpperEscapesEqual(a: Bytes, b: Bytes)
    requires |a| == |b|
    ensures UpperEscapes(a) == UpperEscapes(b) <==> forall i :: 0 <= i < |a| ==> SameByte(a, i, b[i])
    decreases |a|
  {
    if a != [] {
      var k := EscapeSpan(a);
      UpperEscapesEqual(a[k..], b[k..]);
      assert UpperEscapes(a)[0] == a[0] && UpperEscapes(b)[0] == b[0];
      if a[0] == b[0] {
        assert UpperEscapes(a)[k..] == UpperEscapes(a[k..]) && UpperEscapes(b)[k..] == UpperEscapes(b[k..]);
        assert forall i :: k <= i < |a| ==> (EscapeDigit(a, i) <==> EscapeDigit(a[k..], i - k));
        if forall i :: 0 <= i < |a| ==> SameByte(a, i, b[i]) {
          forall i | 0 <= i < |a[k..]| ensures SameByte(a[k..], i, b[k..][i]) {
            assert SameByte(a, i + k, b[i + k]);
          }
        }
        if UpperEscapes(a) == UpperEscapes(b) {
          forall i | 0 <= i < |a| ensures SameByte(a, i, b[i]) {
            if i < k {
              assert UpperEscapes(a)[i] == UpperEscapes(b)[i];
            } else {
              assert SameByte(a[k..], i - k, b[k..][i - k]);
            }
          }
        }
      } else {
        assert !SameByte(a, 0, b[0]);
      }
    }
  }

  /** Byte by byte: only hex digits after a scanned percent sign change, and only in case. */
  lemma {:induction false} UpperEscapesAt(s: Bytes, i: nat)
    requires i < |s|
    ensures UpperEscapes(s)[i] == if EscapeDigit(s, i) then UpperHex(s[i]) else s[i]
    decreases |s|
  {
    var k := EscapeSpan(s);
    if i >= k {
      UpperEscapesAt(s[k..], i - k);
      assert UpperEscapes(s)[i] == UpperEscapes(s[k..])[i - k];
    }
  }

  lemma {:induction false} UpperEscapesIdempotent(s: Bytes)
    ensures UpperEscapes(UpperEscapes(s)) == UpperEscapes(s)
    decreases |s|
  {
    if s != [] {
      var k := EscapeSpan(s);
      UpperEscapesIdempotent(s[k..]);
      assert UpperEscapes(s)[k..] == UpperEscapes(s[k..]);
    }
  }

  // ----- whole URIs

  /**
    The same URI up to letter case in a valid scheme and in the hex digits of
    scanned escapes.
   */
  predicate SameUri(a: Bytes, b: Bytes) {
    var n := SchemeLen(a);
    && |a| == |b| && SchemeLen(b) == n
    && (forall i :: 0 <= i < n ==> ToLower(a[i]) == ToLower(b[i]))
    && (forall i :: 0 <= i < |a| - n ==> SameByte(a[n..], i, b[n..][i]))
  }

  lemma NormalizeAt(uri: Bytes, i: nat)
    requires i < |uri|
    ensures Normalize(uri)[i] == (
      var n := SchemeLen(uri);
      if i < n then ToLower(uri[i]) else if EscapeDigit(uri[n..], i - n) then UpperHex(uri[i]) else uri[i])
  {
    var n := SchemeLen(uri);
    if i >= n {
      UpperEscapesAt(uri[n..], i - n);
    }
  }

  /** Normalizing moves no colon and keeps the scheme a scheme. */
  lemma NormalizeKeepsScheme(uri: Bytes)
    ensures SchemeLen(Normalize(uri)) == SchemeLen(uri)
  {
    var r := Normalize(uri);
    forall i | 0 <= i < |uri| ensures r[i] == COLON <==> uri[i] == COLON {
      NormalizeAt(uri, i);
    }
    var colon := IndexOf(uri, COLON);
    assert IndexOf(r, COLON) == colon;
    forall i | 0 <= i < colon ensures SchemeByte(r[i]) == SchemeByte(uri[i]) && IsAlpha(r[i]) == IsAlpha(uri[i]) {
      NormalizeAt(uri, i);
    }
    assert forall i :: 0 <= i < colon ==> r[..colon][i] == r[i] && uri[..colon][i] == uri[i];
    assert ValidScheme(r[..colon]) == ValidScheme(uri[..colon]);
  }

  lemma NormalizeIdempotent(uri: Bytes)
    ensures Normalize(Normalize(uri)) == Normalize(uri)
  {
    NormalizeKeepsScheme(uri);
    var n := SchemeLen(uri);
    UpperEscapesIdempotent(uri[n..]);
    hide SchemeLen, UpperEscapes, LowerAll;
    Halves(LowerAll(uri[..n]), UpperEscapes(uri[n..]));
    LowerTwice(uri[..n]);
  }

  lemma Halves(a: Bytes, b: Bytes)
    ensures (a + b)[..|a|] == a && (a + b)[|a|..] == b
  {
  }

  lemma LowerTwice(s: Bytes)
    ensures LowerAll(LowerAll(s)) == LowerAll(s)
  {
  }

  /** Two strings normalize alike exactly when they are the same URI up to insignificant case. */
  lemma NormalizeEqual(a: Bytes, b: Bytes)
    ensures Normalize(a) == Normalize(b) <==> SameUri(a, b)
  {
    NormalizeKeepsScheme(a);
    NormalizeKeepsScheme(b);
    var n := SchemeLen(a);
    if |a| == |b| && SchemeLen(b) == n {
      UpperEscapesEqual(a[n..], b[n..]);
      assert Normalize(a)[n..] == UpperEscapes(a[n..]) && Normalize(b)[n..] == UpperEscapes(b[n..]);
      assert Normalize(a)[..n] == LowerAll(a[..n]) && Normalize(b)[..n] == LowerAll(b[..n]);
      assert Normalize(a) == Normalize(a)[..n] + Normalize(a)[n..];
      assert Normalize(b) == Normalize(b)[..n] + Normalize(b)[n..];
      if Normalize(a) == Normalize(b) {
        forall i | 0 <= i < n ensures ToLower(a[i]) == ToLower(b[i]) {
          assert LowerAll(a[..n])[i] == LowerAll(b[..n])[i];
        }
      }
      if SameUri(a, b) {
        forall i | 0 <= i < n ensures LowerAll(a[..n])[i] == LowerAll(b[..n])[i] {
          assert ToLower(a[i]) == ToLower(b[i]);
        }
      }
    }
  }

  // ----- the operation, with its early return

  predicate NeedsSchemeFix(uri: Bytes) {
    exists i :: 0 <= i < SchemeLen(uri) && IsUpper(uri[i])
  }

  /** Some percent sign, scanned or not, has a lower-case letter among the two bytes after it. */
  predicate NeedsHexFix(uri: Bytes) {
    exists i, j :: 0 <= i < j < |uri| && j <= i + 2 && uri[i] == PERCENT && IsLower(uri[j])
  }

  lemma {:induction false} EscapeDigitFollows(s: Bytes, i: nat)
    ensures EscapeDigit(s, i) ==> exists j :: 0 <= j < i < |s| && i <= j + 2 && s[j] == PERCENT
    decreases |s|
  {
    if i < |s| {
      if s[0] == PERCENT {
        if i > 2 {
          EscapeDigitFollows(s[3..], i - 3);
          if EscapeDigit(s, i) {
            var j :| 0 <= j < i - 3 && i - 3 <= j + 2 && s[3..][j] == PERCENT;
            assert s[j + 3] == PERCENT;
          }
        }
      } else if i > 0 {
        EscapeDigitFollows(s[1..], i - 1);
        if EscapeDigit(s, i) {
          var j :| 0 <= j < i - 1 && i - 1 <= j + 2 && s[1..][j] == PERCENT;
          assert s[j + 1] == PERCENT;
        }
      }
    }
  }

  /** When neither fix is needed the rewriting loops would change nothing. */
  lemma EarlyReturnAgrees(uri: Bytes)
    requires !NeedsSchemeFix(uri) && !NeedsHexFix(uri)
    ensures Normalize(uri) == uri
  {
    var n := SchemeLen(uri);
    forall i | 0 <= i < |uri| ensures Normalize(uri)[i] == uri[i] {
      NormalizeAt(uri, i);
      if i >= n && EscapeDigit(uri[n..], i - n) {
        EscapeDigitFollows(uri[n..], i - n);
        var j :| 0 <= j < i - n && i - n <= j + 2 && uri[n..][j] == PERCENT;
        assert uri[n + j] == PERCENT;
      }
    }
  }

  method NormalizeUri(uri: Bytes) returns (r: Bytes)
    ensures r == Normalize(uri)
  {
    hide UpperEscapes;
    var n := SchemeLen(uri);
    if !NeedsSchemeFix(uri) && !NeedsHexFix(uri) {
      EarlyReturnAgrees(uri);
      return uri;
    }
    var bytes := new byte[|uri|](i requires 0 <= i < |uri| => uri[i]);
    LowerScheme(bytes, n);
    ghost var lowered := bytes[..];
    SkipPlain(lowered[..n], lowered[n..]);
    assert lowered == lowered[..n] + lowered[n..] && lowered[..n] == LowerAll(uri[..n]) && lowered[n..] == uri[n..];
    UpperEscapesInPlace(bytes);
    r := bytes[..];
  }

  method LowerScheme(bytes: array<byte>, n: nat)
    requires n <= bytes.Length
    modifies bytes
    ensures bytes[..] == LowerAll(old(bytes[..n])) + old(bytes[n..])
  {
    for i := 0 to n
      invariant forall k :: 0 <= k < i ==> bytes[k] == ToLower(old(bytes[k]))
      invariant forall k :: i <= k < bytes.Length ==> bytes[k] == old(bytes[k])
    {
      bytes[i] := ToLower(bytes[i]);
    }
  }

  /** The second loop: rewrite the escapes of the buffer in place, three bytes per percent sign. */
  method UpperEscapesInPlace(bytes: array<byte>)
    modifies bytes
    ensures bytes[..] == UpperEscapes(old(bytes[..]))
  {
    ghost var was := bytes[..];
    ghost var goal := UpperEscapes(was);
    ghost var at := 0;
    var i := 0;
    while i < bytes.Length
      invariant 0 <= at <= i && at == (if i <= bytes.Length then i else bytes.Length)
      invariant forall k :: 0 <= k < at ==> bytes[k] == goal[k]
      invariant forall k :: at <= k < bytes.Length ==> bytes[k] == was[k]
      invariant goal[at..] == UpperEscapes(was[at..])
    {
      GoalStep(was, at);
      at := at + EscapeSpan(was[at..]);
      if bytes[i] == PERCENT {
        UpperHexAfter(bytes, i);
        i := i + 3;
      } else {
        i := i + 1;
      }
    }
  }

  method UpperHexAfter(bytes: array<byte>, i: nat)
    requires i < bytes.Length
    modifies bytes
    ensures forall k :: 0 <= k < bytes.Length ==>
      bytes[k] == if i < k <= i + 2 then UpperHex(old(bytes[k])) else old(bytes[k])
  {
    var k := i + 1;
    while k < bytes.Length && k <= i + 2
      invariant i < k <= i + 3
      invariant forall j :: 0 <= j < bytes.Length ==>
        bytes[j] == if i < j < k then UpperHex(old(bytes[j])) else old(bytes[j])
    {
      bytes[k] := UpperHex(bytes[k]);
      k := k + 1;
    }
  }

  lemma GoalStep(s: Bytes, at: nat)
    requires at < |s| && UpperEscapes(s)[at..] == UpperEscapes(s[at..])
    ensures var k := EscapeSpan(s[at..]);
      && UpperEscapes(s)[at + k..] == UpperEscapes(s[at + k..])
      && k == (if s[at] != PERCENT then 1 else if |s| - at < 3 then |s| - at else 3)
      && UpperEscapes(s)[at] == s[at]
      && forall j :: at < j < at + k ==> UpperEscapes(s)[j] == UpperHex(s[j])
  {
    var rest := s[at..];
    var k := EscapeSpan(rest);
    EscapeStep(rest);
    assert k == (if s[at] != PERCENT then 1 else if |s| - at < 3 then |s| - at else 3);
    hide *;
    SameFromHere(UpperEscapes(s), UpperEscapes(rest), at, k);
    SameFromHere(s, rest, at, k);
  }

  lemma SameFromHere(whole: Bytes, part: Bytes, at: nat, k: nat)
    requires at <= |whole| && whole[at..] == part && k <= |part|
    ensures whole[at + k..] == part[k..]
    ensures forall j :: at <= j < at + k ==> whole[j] == part[j - at]
  {
  }

  /** How far one turn of the scan goes. */
  function EscapeSpan(s: Bytes): (k: nat)
    requires s != []
    ensures 1 <= k <= |s|
  {
    if s[0] != PERCENT then 1 else if |s| < 3 then |s| else 3
  }

  lemma EscapeStep(s: Bytes)
    requires s != []
    ensures UpperEscapes(s)[EscapeSpan(s)..] == UpperEscapes(s[EscapeSpan(s)..])
    ensures UpperEscapes(s)[0] == s[0]
    ensures forall j :: 1 <= j < EscapeSpan(s) ==> UpperEscapes(s)[j] == UpperHex(s[j])
  {
  }

  lemma {:induction false} SkipPlain(p: Bytes, q: Bytes)
    requires forall i :: 0 <= i < |p| ==> p[i] != PERCENT
    ensures UpperEscapes(p + q) == p + UpperEscapes(q)
    decreases |p|
  {
    if p == [] {
      assert p + q == q;
    } else {
      SkipPlain(p[1..], q);
      assert (p + q)[1..] == p[1..] + q;
    }
  }
}
