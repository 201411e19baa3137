/** ASCII bytes: classes, letter case, and searching for one byte. */
module Ascii {
  import opened Strings

  const SLASH: byte := 0x2F
  const COLON: byte := 0x3A
  const PERCENT: byte := 0x25

  predicate IsUpper(b: byte) { 0x41 <= b <= 0x5A }

  predicate IsLower(b: byte) { 0x61 <= b <= 0x7A }

  predicate IsAlpha(b: byte) { IsUpper(b) || IsLower(b) }

  predicate IsDigit(b: byte) { 0x30 <= b <= 0x39 }

  predicate IsAlnum(b: byte) { IsAlpha(b) || IsDigit(b) }

  predicate IsHex(b: byte) { IsDigit(b) || 0x41 <= b <= 0x46 || 0x61 <= b <= 0x66 }

  function ToLower(b: byte): byte { if IsUpper(b) then b + 0x20 else b }

  function ToUpper(b: byte): byte { if IsLower(b) then b - 0x20 else b }

  function LowerAll(s: Bytes): (r: Bytes)
    ensures |r| == |s| && forall i :: 0 <= i < |s| ==> r[i] == ToLower(s[i])
  {
    seq(|s|, i requires 0 <= i < |s| => ToLower(s[i]))
  }

  /** An ASCII literal as bytes. */
  function Lit(s: string): (r: Bytes)
    requires forall i :: 0 <= i < |s| ==> s[i] as int < 128
    ensures |r| == |s| && forall i :: 0 <= i < |s| ==> r[i] == s[i] as int
  {
    seq(|s|, i requires 0 <= i < |s| => s[i] as int)
  }

  /** The first index of `b`, or the length of `s` if it does not occur. */
  function IndexOf(s: Bytes, b: byte): (i: nat)
    ensures i <= |s| && (i < |s| ==> s[i] == b)
    ensures forall j :: 0 <= j < i ==> s[j] != b
  {
    if s == [] || s[0] == b then 0 else 1 + IndexOf(s[1..], b)
  }

  /** One past the last index of `b`, or 0 if it does not occur. */
  function AfterLast(s: Bytes, b: byte): (i: nat)
    ensures i <= |s| && (i > 0 ==> s[i - 1] == b)
    ensures forall j :: i <= j < |s| ==> s[j] != b
  {
    if s == [] || s[|s| - 1] == b then |s| else AfterLast(s[..|s| - 1], b)
  }
}
