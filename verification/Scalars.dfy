/**
  What UTF-8 bytes stand for (RFC 3629, section 3): text is valid exactly when it
  is the encoding of a sequence of Unicode scalar values, and the columns of the
  protocol count code units of those scalars (src/text.rs:84-158).
 */
module Scalars {
  import opened Strings
  import opened Text

  /** A Unicode scalar value: any code point but the surrogates. */
  predicate IsScalar(c: nat) {
    c < 0xD800 || 0xE000 <= c < 0x11_0000
  }

  /** The UTF-8 encoding of a scalar value, by its range. */
  function Encode(c: nat): (s: Bytes)
    requires IsScalar(c)
    ensures 1 <= |s| <= 4
  {
    if c < 0x80 then [c]
    else if c < 0x800 then [0xC0 + c / 0x40, 0x80 + c % 0x40]
    else if c < 0x1_0000 then [0xE0 + c / 0x1000, 0x80 + c / 0x40 % 0x40, 0x80 + c % 0x40]
    else [0xF0 + c / 0x4_0000, 0x80 + c / 0x1000 % 0x40, 0x80 + c / 0x40 % 0x40, 0x80 + c % 0x40]
  }

  lemma TwoBytes(c: nat)
    requires 0x80 <= c < 0x800
    ensures HeadWidth(Encode(c)) == 2 && Scalar(Encode(c)) == c
  {
  }

  lemma ThreeBytes(c: nat)
    requires 0x800 <= c < 0x1_0000 && IsScalar(c)
    ensures HeadWidth(Encode(c)) == 3 && Scalar(Encode(c)) == c
  {
    var s := Encode(c);
    var hi, mid, lo := c / 0x1000, c / 0x40 % 0x40, c % 0x40;
    assert c == hi * 0x1000 + mid * 0x40 + lo;
    assert s == [0xE0 + hi, 0x80 + mid, 0x80 + lo];
  }

  lemma FourBytes(c: nat)
    requires 0x1_0000 <= c < 0x11_0000
    ensures HeadWidth(Encode(c)) == 4 && Scalar(Encode(c)) == c
  {
    SixBitDigits(c);
    FourBytesOf(c / 0x4_0000, c / 0x1000 % 0x40, c / 0x40 % 0x40, c % 0x40);
  }

  /** A scalar past 0xFFFF in digits of six bits, as four bytes carry it. */
  lemma SixBitDigits(c: nat)
    requires 0x1_0000 <= c < 0x11_0000
    ensures var top, hi := c / 0x4_0000, c / 0x1000 % 0x40;
      && c == top * 0x4_0000 + hi * 0x1000 + (c / 0x40 % 0x40) * 0x40 + c % 0x40
      && top <= 4 && (top == 0 ==> hi >= 0x10) && (top == 4 ==> hi < 0x10)
  {
    var a, b := c / 0x40, c / 0x1000;
    assert b == a / 0x40 && c / 0x4_0000 == b / 0x40;
    assert c == a * 0x40 + c % 0x40 && a == b * 0x40 + a % 0x40 && b == (b / 0x40) * 0x40 + b % 0x40;
  }

  lemma FourBytesOf(top: nat, hi: nat, mid: nat, lo: nat)
    requires top <= 4 && hi < 0x40 && mid < 0x40 && lo < 0x40
    requires (top == 0 ==> hi >= 0x10) && (top == 4 ==> hi < 0x10)
    ensures var s: Bytes := [0xF0 + top, 0x80 + hi, 0x80 + mid, 0x80 + lo];
      HeadWidth(s) == 4 && Scalar(s) == top * 0x4_0000 + hi * 0x1000 + mid * 0x40 + lo
  {
  }

  /** Every scalar's encoding is one character, which stands for that scalar. */
  lemma EncodedIsRead(c: nat)
    requires IsScalar(c)
    ensures HeadWidth(Encode(c)) == |Encode(c)| && Scalar(Encode(c)) == c
  {
    if c < 0x80 {
    } else if c < 0x800 {
      TwoBytes(c);
    } else if c < 0x1_0000 {
      ThreeBytes(c);
    } else {
      FourBytes(c);
    }
  }

  /** And every well-formed character is the encoding of the scalar it stands for: no other form is accepted. */
  lemma ReadIsEncoded(s: Bytes)
    requires s != [] && HeadWidth(s) > 0
    ensures IsScalar(Scalar(s)) && s[..HeadWidth(s)] == Encode(Scalar(s))
  {
    var w := HeadWidth(s);
    if w == 1 {
      assert s[..1] == [s[0]];
    } else if w == 2 {
      ReadTwo(s);
    } else if w == 3 {
      ReadThree(s);
    } else {
      ReadFour(s);
    }
  }

  lemma ReadTwo(s: Bytes)
    requires s != [] && HeadWidth(s) == 2
    ensures IsScalar(Scalar(s)) && s[..2] == Encode(Scalar(s))
  {
    var a: int, b: int := s[0] - 0xC0, s[1] - 0x80;
    assert Scalar(s) == a * 0x40 + b;
    assert (a * 0x40 + b) / 0x40 == a && (a * 0x40 + b) % 0x40 == b;
    assert s[..2] == [s[0], s[1]];
  }

  lemma ReadThree(s: Bytes)
    requires s != [] && HeadWidth(s) == 3
    ensures IsScalar(Scalar(s)) && s[..3] == Encode(Scalar(s))
  {
    var a: int, b: int, c: int := s[0] - 0xE0, s[1] - 0x80, s[2] - 0x80;
    var n := a * 0x1000 + b * 0x40 + c;
    assert Scalar(s) == n;
    assert n / 0x1000 == a && n / 0x40 == a * 0x40 + b && n % 0x40 == c;
    assert s[..3] == [s[0], s[1], s[2]];
  }

  lemma ReadFour(s: Bytes)
    requires s != [] && HeadWidth(s) == 4
    ensures IsScalar(Scalar(s)) && s[..4] == Encode(Scalar(s))
  {
    var a: int, b: int, c: int, d: int := s[0] - 0xF0, s[1] - 0x80, s[2] - 0x80, s[3] - 0x80;
    var n := a * 0x4_0000 + b * 0x1000 + c * 0x40 + d;
    assert Scalar(s) == n;
    assert n / 0x4_0000 == a && n / 0x1000 == a * 0x40 + b && n / 0x40 == a * 0x1000 + b * 0x40 + c && n % 0x40 == d;
    assert s[..4] == [s[0], s[1], s[2], s[3]];
  }

  // ----- whole texts

  predicate AllScalars(cs: seq<nat>) {
    forall i :: 0 <= i < |cs| ==> IsScalar(cs[i])
  }

  function EncodeAll(cs: seq<nat>): Bytes
    requires AllScalars(cs)
  {
    if cs == [] then [] else Encode(cs[0]) + EncodeAll(cs[1..])
  }

  /** The scalars a text stands for. */
  function Decode(s: Bytes): seq<nat>
    requires Valid(s)
    decreases |s|
  {
    if s == [] then [] else [Scalar(s)] + Decode(s[HeadWidth(s)..])
  }

  lemma {:induction false} DecodeThenEncode(s: Bytes)
    requires Valid(s)
    ensures AllScalars(Decode(s)) && EncodeAll(Decode(s)) == s
    decreases |s|
  {
    if s != [] {
      HeadIsBoundary(s);
      ReadIsEncoded(s);
      hide HeadWidth, Scalar, Encode, Valid;
      DecodeThenEncode(s[HeadWidth(s)..]);
      assert s == s[..HeadWidth(s)] + s[HeadWidth(s)..];
    }
  }

  lemma {:induction false} EncodeThenDecode(cs: seq<nat>)
    requires AllScalars(cs)
    ensures Valid(EncodeAll(cs)) && Decode(EncodeAll(cs)) == cs
    decreases |cs|
  {
    if cs != [] {
      EncodeThenDecode(cs[1..]);
      EncodedIsRead(cs[0]);
      var first, rest := Encode(cs[0]), EncodeAll(cs[1..]);
      HeadOfExtension(first, rest);
      hide HeadWidth, Scalar, Encode;
      assert (first + rest)[|first|..] == rest;
      assert cs == [cs[0]] + cs[1..];
    }
  }

  /** Valid text is exactly what encodes a sequence of scalar values, and encodes just one. */
  lemma ValidIsEncoded(s: Bytes)
    ensures Valid(s) <==> exists cs :: AllScalars(cs) && EncodeAll(cs) == s
    ensures Valid(s) ==> forall cs :: AllScalars(cs) && EncodeAll(cs) == s ==> cs == Decode(s)
  {
    hide Valid, EncodeAll, Decode;
    if Valid(s) {
      DecodeThenEncode(s);
      assert AllScalars(Decode(s)) && EncodeAll(Decode(s)) == s;
      forall cs | AllScalars(cs) && EncodeAll(cs) == s ensures cs == Decode(s) {
        EncodeThenDecode(cs);
      }
    }
    if cs :| AllScalars(cs) && EncodeAll(cs) == s {
      EncodeThenDecode(cs);
    }
  }

  // ----- what columns count

  /** The UTF-16 encoding: a surrogate pair for the scalars past 0xFFFF. */
  function Utf16Of(cs: seq<nat>): seq<nat> {
    if cs == [] then []
    else (if cs[0] < 0x1_0000 then [cs[0]] else [0xD800 + (cs[0] - 0x1_0000) / 0x400, 0xDC00 + cs[0] % 0x400]) + Utf16Of(cs[1..])
  }

  /** Columns count bytes, UTF-16 code units, or scalars. */
  lemma {:induction false} UnitsCountCodeUnits(s: Bytes)
    requires Valid(s)
    ensures Units(s, Utf8) == |s| && Units(s, Utf16) == |Utf16Of(Decode(s))| && Units(s, Utf32) == |Decode(s)|
    decreases |s|
  {
    if s != [] {
      HeadIsBoundary(s);
      WidthOfHead(s);
      hide HeadWidth, Scalar, Valid;
      UnitsCountCodeUnits(s[HeadWidth(s)..]);
      assert Decode(s)[1..] == Decode(s[HeadWidth(s)..]);
    }
  }
}
