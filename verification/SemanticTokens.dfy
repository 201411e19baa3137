/**
  `SemanticTokensBuilder` (src/lsp/semantic_tokens.rs): absolute tokens pushed in
  any order become the protocol's relative integer array (LSP 3.17, "Textual
  Document Semantic Tokens", "Integer Encoding for Tokens").
 */
module SemanticTokens {
  import opened Strings
  import opened Text
  import opened Wrappers
  import opened Edits
  import LineIndex
  import Sorting
  import TextScan

  datatype Token = Token(line: nat, start: nat, length: nat, tokenType: nat, modifiers: nat)

  /** Every field fits the unsigned 32-bit integers of the wire. */
  predicate Wire(t: Token) {
    && t.line < 0x1_0000_0000 && t.start < 0x1_0000_0000 && t.length < 0x1_0000_0000
    && t.tokenType < 0x1_0000_0000 && t.modifiers < 0x1_0000_0000
  }

  // ----- document order

  /** Field by field, as the derived order on tuples compares. */
  predicate TokenLeq(a: Token, b: Token) {
    a.line < b.line || (a.line == b.line &&
    (a.start < b.start || (a.start == b.start &&
    (a.length < b.length || (a.length == b.length &&
    (a.tokenType < b.tokenType || (a.tokenType == b.tokenType && a.modifiers <= b.modifiers)))))))
  }

  lemma TokensAreTotal()
    ensures Sorting.Total(TokenLeq)
  {
  }

  function Fields(t: Token): (fields: seq<nat>)
    ensures |fields| == 5
  {
    [t.line, t.start, t.length, t.tokenType, t.modifiers]
  }

  /** The first place where the two differ decides. */
  predicate LexLeq(a: seq<nat>, b: seq<nat>)
    requires |a| == |b|
  {
    a == [] || a[0] < b[0] || (a[0] == b[0] && LexLeq(a[1..], b[1..]))
  }

  lemma OrderIsLexicographic(a: Token, b: Token)
    ensures TokenLeq(a, b) <==> LexLeq(Fields(a), Fields(b))
  {
    var x, y := Fields(a), Fields(b);
    LexStep(x, y);
    LexStep(x[1..], y[1..]);
    LexStep(x[2..], y[2..]);
    LexStep(x[3..], y[3..]);
    LexStep(x[4..], y[4..]);
    assert LexLeq(x[5..], y[5..]);
    hide LexLeq;
    assert x[1..][1..] == x[2..] && x[2..][1..] == x[3..] && x[3..][1..] == x[4..] && x[4..][1..] == x[5..];
    assert y[1..][1..] == y[2..] && y[2..][1..] == y[3..] && y[3..][1..] == y[4..] && y[4..][1..] == y[5..];
  }

  lemma LexStep(a: seq<nat>, b: seq<nat>)
    requires |a| == |b| > 0
    ensures LexLeq(a, b) <==> a[0] < b[0] || (a[0] == b[0] && LexLeq(a[1..], b[1..]))
  {
  }

  /** In the order of the tuples: by line, start, length, type and modifiers. */
  predicate InTupleOrder(ts: seq<Token>) {
    forall i, j :: 0 <= i < j < |ts| ==> LexLeq(Fields(ts[i]), Fields(ts[j]))
  }

  lemma SortedIsInTupleOrder(ts: seq<Token>)
    requires Sorting.SortedBy(ts, TokenLeq)
    ensures InTupleOrder(ts)
  {
    hide LexLeq, Fields;
    forall i, j | 0 <= i < j < |ts| ensures LexLeq(Fields(ts[i]), Fields(ts[j])) {
      assert TokenLeq(ts[i], ts[j]);
      OrderIsLexicographic(ts[i], ts[j]);
    }
  }

  // ----- the relative encoding

  /** The client's side: rebuild absolute positions from running sums. */
  function Decode(data: seq<nat>, line: nat, start: nat): seq<Token>
    requires |data| % 5 == 0
    decreases |data|
  {
    if data == [] then []
    else
      var l := line + data[0];
      var s := if data[0] == 0 then start + data[1] else data[1];
      [Token(l, s, data[2], data[3], data[4])] + Decode(data[5..], l, s)
  }

  function Follows(line: nat, start: nat, t: Token): bool {
    line < t.line || (line == t.line && start <= t.start)
  }

  function Deltas(t: Token, line: nat, start: nat): (d: seq<nat>)
    requires Follows(line, start, t)
    ensures |d| == 5
  {
    [t.line - line, if t.line == line then t.start - start else t.start, t.length, t.tokenType, t.modifiers]
  }

  /** The line and the start the next token is relative to. */
  function Line(before: seq<Token>, line: nat): nat {
    if before == [] then line else before[|before| - 1].line
  }

  function Start(before: seq<Token>, start: nat): nat {
    if before == [] then start else before[|before| - 1].start
  }

  lemma {:induction false} DecodeAppend(data: seq<nat>, t: Token, line: nat, start: nat)
    requires |data| % 5 == 0
    requires var before := Decode(data, line, start); Follows(Line(before, line), Start(before, start), t)
    ensures var before := Decode(data, line, start);
      Decode(data + Deltas(t, Line(before, line), Start(before, start)), line, start) == before + [t]
    decreases |data|
  {
    if data == [] {
      var d := Deltas(t, line, start);
      assert data + d == d && d[5..] == [];
    } else {
      var l := line + data[0];
      var s := if data[0] == 0 then start + data[1] else data[1];
      var head := Token(l, s, data[2], data[3], data[4]);
      var rest := Decode(data[5..], l, s);
      DecodeStep(data, line, start);
      LastOfMore(head, rest, line, start);
      hide Decode, Line, Start;
      DecodeAppend(data[5..], t, l, s);
      DecodePrepend(data, Deltas(t, Line(rest, l), Start(rest, s)), line, start);
      hide Deltas, Follows;
      assert [head] + (rest + [t]) == [head] + rest + [t];
    }
  }

  lemma DecodePrepend(data: seq<nat>, d: seq<nat>, line: nat, start: nat)
    requires |data| >= 5 && |data| % 5 == 0 && |d| == 5
    ensures var l := line + data[0];
      var s := if data[0] == 0 then start + data[1] else data[1];
      Decode(data + d, line, start) == [Token(l, s, data[2], data[3], data[4])] + Decode(data[5..] + d, l, s)
  {
    assert (data + d)[5..] == data[5..] + d;
    DecodeStep(data + d, line, start);
    hide Decode;
  }

  lemma DecodeStep(data: seq<nat>, line: nat, start: nat)
    requires |data| >= 5 && |data| % 5 == 0
    ensures var l := line + data[0];
      var s := if data[0] == 0 then start + data[1] else data[1];
      Decode(data, line, start) == [Token(l, s, data[2], data[3], data[4])] + Decode(data[5..], l, s)
  {
  }

  lemma LastOfMore(head: Token, rest: seq<Token>, line: nat, start: nat)
    ensures Line([head] + rest, line) == Line(rest, head.line) && Start([head] + rest, start) == Start(rest, head.start)
  {
  }

  // ----- legend names and modifier bits

  /** The first index of `name`. */
  function FirstIndex(names: seq<Bytes>, name: Bytes): (index: Option<nat>)
    ensures index.Some? <==> name in names
    ensures index.Some? ==> index.value < |names| && names[index.value] == name && name !in names[..index.value]
  {
    if names == [] then None
    else if names[0] == name then Some(0)
    else
      assert names == [names[0]] + names[1..];
      match FirstIndex(names[1..], name)
      case None => None
      case Some(i) =>
        assert names[..i + 1] == [names[0]] + names[1..][..i];
        Some(i + 1)
  }

  function Pow2(k: nat): nat {
    if k == 0 then 1 else 2 * Pow2(k - 1)
  }

  /** Bit `k` of `n`. */
  predicate Bit(n: nat, k: nat) {
    if k == 0 then n % 2 == 1 else Bit(n / 2, k - 1)
  }

  /** `n | (1 << k)`, bit by bit. */
  function OrBit(n: nat, k: nat): nat {
    if k == 0 then n - n % 2 + 1 else 2 * OrBit(n / 2, k - 1) + n % 2
  }

  lemma {:induction false} OrBitSets(n: nat, k: nat, j: nat)
    ensures Bit(OrBit(n, k), j) <==> Bit(n, j) || j == k
    decreases k
  {
    if k == 0 {
      if j > 0 {
        assert OrBit(n, 0) / 2 == n / 2;
      }
    } else if j > 0 {
      assert OrBit(n, k) / 2 == OrBit(n / 2, k - 1);
      OrBitSets(n / 2, k - 1, j - 1);
    }
  }

  lemma Halves(n: nat, p: nat)
    requires n < 2 * p
    ensures n / 2 < p && 0 <= n % 2 <= 1 && n - n % 2 + 1 < 2 * p
  {
  }

  lemma Doubles(m: nat, bit: nat, p: nat)
    requires m < p && bit <= 1
    ensures 2 * m + bit < 2 * p
  {
  }

  lemma {:induction false} OrBitFits(n: nat, k: nat, w: nat)
    requires k < w && n < Pow2(w)
    ensures OrBit(n, k) < Pow2(w)
    decreases k
  {
    assert Pow2(w) == 2 * Pow2(w - 1);
    assert OrBit(n, k) == if k == 0 then n - n % 2 + 1 else 2 * OrBit(n / 2, k - 1) + n % 2;
    hide *;
    Halves(n, Pow2(w - 1));
    if k > 0 {
      OrBitFits(n / 2, k - 1, w - 1);
      Doubles(OrBit(n / 2, k - 1), n % 2, Pow2(w - 1));
    }
  }

  lemma {:induction false} ZeroHasNoBits(j: nat)
    ensures !Bit(0, j)
  {
    if j > 0 {
      ZeroHasNoBits(j - 1);
    }
  }

  predicate AllKnown(names: seq<Bytes>, wanted: seq<Bytes>) {
    forall i :: 0 <= i < |wanted| ==> wanted[i] in names
  }

  /** `name` is the first of the wanted names the legend does not have. */
  ghost predicate FirstUnknown(names: seq<Bytes>, wanted: seq<Bytes>, name: Bytes) {
    exists i: nat :: FirstUnknownAt(names, wanted, name, i)
  }

  predicate FirstUnknownAt(names: seq<Bytes>, wanted: seq<Bytes>, name: Bytes, i: nat) {
    i < |wanted| && wanted[i] == name && name !in names && AllKnown(names, wanted[..i])
  }

  /** The bitmask of known names: bit `k` says the legend's k-th name, at its first mention, is wanted. */
  function Mask(names: seq<Bytes>, wanted: seq<Bytes>): nat
    requires AllKnown(names, wanted)
    decreases |wanted|
  {
    if wanted == [] then 0
    else
      var last := wanted[|wanted| - 1];
      assert last in wanted;
      OrBit(Mask(names, wanted[..|wanted| - 1]), FirstIndex(names, last).value)
  }

  lemma {:induction false} MaskBits(names: seq<Bytes>, wanted: seq<Bytes>, k: nat)
    requires AllKnown(names, wanted)
    ensures Bit(Mask(names, wanted), k) <==>
      exists i :: 0 <= i < |wanted| && FirstIndex(names, wanted[i]) == Some(k)
    decreases |wanted|
  {
    if wanted == [] {
      ZeroHasNoBits(k);
    } else {
      var rest := wanted[..|wanted| - 1];
      var last := wanted[|wanted| - 1];
      MaskBits(names, rest, k);
      OrBitSets(Mask(names, rest), FirstIndex(names, last).value, k);
      if i :| 0 <= i < |wanted| && FirstIndex(names, wanted[i]) == Some(k) {
        assert i < |rest| ==> rest[i] == wanted[i];
      }
      if i :| 0 <= i < |rest| && FirstIndex(names, rest[i]) == Some(k) {
        assert wanted[i] == rest[i];
      }
    }
  }

  lemma {:induction false} MaskFits(names: seq<Bytes>, wanted: seq<Bytes>)
    requires AllKnown(names, wanted) && |names| <= 32
    ensures Mask(names, wanted) < 0x1_0000_0000
    decreases |wanted|
  {
    assert Pow2(32) == 0x1_0000_0000 by { PowersOfTwo(); }
    if wanted != [] {
      MaskFits(names, wanted[..|wanted| - 1]);
      OrBitFits(Mask(names, wanted[..|wanted| - 1]), FirstIndex(names, wanted[|wanted| - 1]).value, 32);
    }
  }

  lemma PowersOfTwo()
    ensures Pow2(32) == 0x1_0000_0000
  {
    assert Pow2(8) == 0x100;
    assert Pow2(16) == 0x1_0000;
    assert Pow2(24) == 0x100_0000;
  }

  // ----- a document range as tokens

  function LineCount(text: Bytes): nat {
    LfCount(text, |text|) + 1
  }

  /** The text of a line that exists. */
  function LineText(text: Bytes, line: nat): Bytes
    requires line < LineCount(text)
  {
    LineIndex.TableRows(text);
    var index := LineIndex.New(text);
    text[index.lineStarts[line]..index.LineEnd(line)]
  }

  function PieceStart(range: Range, line: nat, units: nat): nat {
    if line == range.start.line then Min(range.start.character, units) else 0
  }

  function PieceEnd(range: Range, line: nat, units: nat): nat {
    if line == range.end.line then Min(range.end.character, units) else units
  }

  /** The range's token on one line, if it covers anything there. */
  function LinePiece(text: Bytes, range: Range, enc: Encoding, ty: nat, mods: nat, line: nat): (piece: seq<Token>)
    requires line < LineCount(text)
  {
    var units := Units(LineText(text, line), enc);
    var start, end := PieceStart(range, line, units), PieceEnd(range, line, units);
    if end > start then [Token(line, start, end - start, ty, mods)] else []
  }

  /** The tokens of a range from `line` on: at most one a line, none where it covers nothing. */
  function RangeTokens(text: Bytes, range: Range, enc: Encoding, ty: nat, mods: nat, line: nat): seq<Token>
    decreases LineCount(text) - line
  {
    if line > range.end.line || line >= LineCount(text) then []
    else LinePiece(text, range, enc, ty, mods, line) + RangeTokens(text, range, enc, ty, mods, line + 1)
  }

  /** The half-open range of positions, compared line first. */
  predicate InRange(range: Range, line: nat, column: nat) {
    && (range.start.line < line || (range.start.line == line && range.start.character <= column))
    && (line < range.end.line || (line == range.end.line && column < range.end.character))
  }

  predicate Covers(t: Token, line: nat, column: nat) {
    t.line == line && t.start <= column < t.start + t.length
  }

  predicate InsideText(text: Bytes, enc: Encoding, line: nat, column: nat) {
    line < LineCount(text) && column < Units(LineText(text, line), enc)
  }

  /** At most one token a line, in line order, all of one type and modifier set. */
  predicate OneToALine(ts: seq<Token>, from: nat, ty: nat, mods: nat) {
    && (forall i :: 0 <= i < |ts| ==> ts[i].line >= from && ts[i].tokenType == ty && ts[i].modifiers == mods)
    && (forall i, j :: 0 <= i < j < |ts| ==> ts[i].line < ts[j].line)
  }

  lemma {:induction false} RangeTokensOrdered(
    text: Bytes, range: Range, enc: Encoding, ty: nat, mods: nat, from: nat)
    ensures OneToALine(RangeTokens(text, range, enc, ty, mods, from), from, ty, mods)
    decreases LineCount(text) - from
  {
    hide Units, LineText;
    if from <= range.end.line && from < LineCount(text) {
      RangeTokensOrdered(text, range, enc, ty, mods, from + 1);
    }
  }

  lemma {:induction false} RangeTokensCells(
    text: Bytes, range: Range, enc: Encoding, ty: nat, mods: nat, from: nat, line: nat, column: nat)
    requires from >= range.start.line
    ensures var ts := RangeTokens(text, range, enc, ty, mods, from);
      (exists t :: t in ts && Covers(t, line, column)) <==>
      line >= from && InRange(range, line, column) && InsideText(text, enc, line, column)
    decreases LineCount(text) - from
  {
    hide Units, LineText;
    if from <= range.end.line && from < LineCount(text) {
      RangeTokensCells(text, range, enc, ty, mods, from + 1, line, column);
      var rest := RangeTokens(text, range, enc, ty, mods, from + 1);
      var ts := RangeTokens(text, range, enc, ty, mods, from);
      var piece := LinePiece(text, range, enc, ty, mods, from);
      assert ts == piece + rest;
      assert forall t :: t in ts <==> t in piece || t in rest;
      PieceCells(text, range, enc, ty, mods, from, line, column);
    }
  }

  lemma PieceCells(
    text: Bytes, range: Range, enc: Encoding, ty: nat, mods: nat, from: nat, line: nat, column: nat)
    requires range.start.line <= from <= range.end.line && from < LineCount(text)
    ensures (exists t :: t in LinePiece(text, range, enc, ty, mods, from) && Covers(t, line, column)) <==>
      line == from && InRange(range, line, column) && InsideText(text, enc, line, column)
  {
    hide Units, LineText;
    var piece := LinePiece(text, range, enc, ty, mods, from);
    if piece != [] {
      assert piece[0] in piece && forall t :: t in piece ==> t == piece[0];
      assert (exists t :: t in piece && Covers(t, line, column)) <==> Covers(piece[0], line, column);
    }
  }

  /**
    The tokens of a range, in document order with one to a line, cover exactly
    the cells of the range that lie inside the text's lines.
   */
  lemma RangeTokensCover(text: Bytes, range: Range, enc: Encoding, ty: nat, mods: nat, line: nat, column: nat)
    ensures var ts := RangeTokens(text, range, enc, ty, mods, range.start.line);
      && OneToALine(ts, range.start.line, ty, mods)
      && ((exists t :: t in ts && Covers(t, line, column)) <==>
          InRange(range, line, column) && InsideText(text, enc, line, column))
  {
    RangeTokensOrdered(text, range, enc, ty, mods, range.start.line);
    RangeTokensCells(text, range, enc, ty, mods, range.start.line, line, column);
  }

  // ----- the builder

  datatype TokenError = UnknownType(name: Bytes) | UnknownModifier(name: Bytes)

  class SemanticTokensBuilder {
    const tokenTypes: seq<Bytes>
    const tokenModifiers: seq<Bytes>
    var tokens: seq<Token>

    constructor (tokenTypes: seq<Bytes>, tokenModifiers: seq<Bytes>)
      requires |tokenTypes| <= 0x1_0000_0000 && |tokenModifiers| <= 32
      ensures Valid() && tokens == []
      ensures this.tokenTypes == tokenTypes && this.tokenModifiers == tokenModifiers
    {
      this.tokenTypes := tokenTypes;
      this.tokenModifiers := tokenModifiers;
      tokens := [];
    }

    ghost predicate Valid()
      reads this
    {
      && |tokenTypes| <= 0x1_0000_0000 && |tokenModifiers| <= 32
      && forall i :: 0 <= i < |tokens| ==> Wire(tokens[i])
    }

    predicate Known(tokenType: Bytes, modifiers: seq<Bytes>) {
      tokenType in tokenTypes && AllKnown(tokenModifiers, modifiers)
    }

    function TypeIndex(tokenType: Bytes): (i: nat)
      requires tokenType in tokenTypes
    {
      FirstIndex(tokenTypes, tokenType).value
    }

    method Push(line: u32, start: u32, length: u32, tokenType: Bytes, modifiers: seq<Bytes>)
      returns (result: Result<(), TokenError>)
      requires Valid()
      modifies this
      ensures Valid()
      ensures result.Ok? <==> Known(tokenType, modifiers)
      ensures tokens == old(tokens) +
        if Known(tokenType, modifiers)
        then [Token(line, start, length, TypeIndex(tokenType), Mask(tokenModifiers, modifiers))] else []
      ensures result.Err? ==> match result.error
        case UnknownType(name) => name == tokenType && name !in tokenTypes
        case UnknownModifier(name) => tokenType in tokenTypes && FirstUnknown(tokenModifiers, modifiers, name)
    {
      match FirstIndex(tokenTypes, tokenType)
      case None => return Err(UnknownType(tokenType));
      case Some(typeIndex) =>
        var bits := 0;
        for i := 0 to |modifiers|
          invariant AllKnown(tokenModifiers, modifiers[..i]) && bits == Mask(tokenModifiers, modifiers[..i])
        {
          match FirstIndex(tokenModifiers, modifiers[i]) {
            case None =>
              assert FirstUnknownAt(tokenModifiers, modifiers, modifiers[i], i);
              return Err(UnknownModifier(modifiers[i]));
            case Some(index) =>
              assert modifiers[..i + 1][..i] == modifiers[..i];
              bits := OrBit(bits, index);
          }
        }
        assert modifiers[..|modifiers|] == modifiers;
        MaskFits(tokenModifiers, modifiers);
        PushRaw(line, start, length, typeIndex, bits);
        return Ok(());
    }

    method PushRaw(line: u32, start: u32, length: u32, typeIndex: u32, modifierBits: u32)
      requires Valid()
      modifies this
      ensures Valid()
      ensures tokens == old(tokens) + [Token(line, start, length, typeIndex, modifierBits)]
    {
      tokens := tokens + [Token(line, start, length, typeIndex, modifierBits)];
    }

    /**
      With known names every token of the range is pushed; with an unknown name
      none is, and it is an error exactly when the range has a token at all.
     */
    method PushRange(text: Bytes, index: LineIndex.LineIndex, range: Range, enc: Encoding,
                     tokenType: Bytes, modifiers: seq<Bytes>)
      returns (result: Result<(), TokenError>)
      requires Valid() && Fits(text) && index == LineIndex.New(text)
      modifies this
      ensures Valid()
      ensures Known(tokenType, modifiers) ==>
        && result.Ok?
        && tokens == old(tokens) + RangeTokens(text, range, enc, TypeIndex(tokenType),
                                               Mask(tokenModifiers, modifiers), range.start.line)
      ensures !Known(tokenType, modifiers) ==>
        && tokens == old(tokens)
        && (result.Ok? <==> RangeTokens(text, range, enc, 0, 0, range.start.line) == [])
    {
      hide *;
      ghost var ty, mods := Resolved(tokenType, modifiers);
      IndexLines(text, index);
      var line: nat := range.start.line;
      ghost var done: seq<Token> := [];
      while line <= range.end.line
        invariant Valid()
        invariant done + RangeTokens(text, range, enc, ty, mods, line)
               == RangeTokens(text, range, enc, ty, mods, range.start.line)
        invariant tokens == old(tokens) + done && (!Known(tokenType, modifiers) ==> done == [])
        decreases LineCount(text) - line
      {
        RangeStep(text, range, enc, ty, mods, line);
        if index.LineStart(line).None? {
          break;
        }
        var pushed := PushLine(text, index, range, enc, line, tokenType, modifiers);
        if pushed.Err? {
          return pushed;
        }
        done := done + LinePiece(text, range, enc, ty, mods, line);
        line := line + 1;
      }
      RangeStep(text, range, enc, ty, mods, line);
      result := Ok(());
    }

    /** The indices the names resolve to, zeros when a name is unknown. */
    lemma Resolved(tokenType: Bytes, modifiers: seq<Bytes>) returns (ty: nat, mods: nat)
      ensures Known(tokenType, modifiers) ==> ty == TypeIndex(tokenType) && mods == Mask(tokenModifiers, modifiers)
      ensures !Known(tokenType, modifiers) ==> ty == 0 && mods == 0
    {
      if Known(tokenType, modifiers) {
        ty, mods := TypeIndex(tokenType), Mask(tokenModifiers, modifiers);
      } else {
        ty, mods := 0, 0;
      }
    }

    /** One turn of the loop: the part of the range on a line that exists. */
    method PushLine(text: Bytes, index: LineIndex.LineIndex, range: Range, enc: Encoding, line: nat,
                    tokenType: Bytes, modifiers: seq<Bytes>)
      returns (result: Result<(), TokenError>)
      requires Valid() && Fits(text) && index == LineIndex.New(text) && index.LineStart(line).Some?
      modifies this
      ensures Valid() && line < LineCount(text)
      ensures Known(tokenType, modifiers) ==>
        && result.Ok?
        && tokens == old(tokens)
           + LinePiece(text, range, enc, TypeIndex(tokenType), Mask(tokenModifiers, modifiers), line)
      ensures !Known(tokenType, modifiers) ==>
        tokens == old(tokens) && (result.Ok? <==> LinePiece(text, range, enc, 0, 0, line) == [])
    {
      hide LineText, Units, Fits, FirstIndex, Mask, AllKnown, LfCount;
      LineOfIndex(text, index, line, enc);
      var lineStart := index.LineStart(line).value;
      var lineText := text[lineStart..index.LineEnd(line)];
      var units := TextScan.ByteToColumnWith(lineText, |lineText|, enc);
      var start := if line == range.start.line then Min(range.start.character, units) else 0;
      var end := if line == range.end.line then Min(range.end.character, units) else units;
      if end > start {
        result := Push(line, start, end - start, tokenType, modifiers);
      } else {
        result := Ok(());
      }
    }

    /**
      Consumes the tokens: sorted in place, then written as differences. Decoding
      the array gives back a permutation of what was pushed, in the order of the
      tuples.
     */
    method Build() returns (data: seq<u32>)
      requires Valid()
      modifies this
      ensures tokens == Sorting.Sort(old(tokens), TokenLeq) && Sorting.SortedBy(tokens, TokenLeq)
      ensures |data| == 5 * |old(tokens)|
      ensures Decode(data, 0, 0) == tokens && InTupleOrder(tokens)
      ensures multiset(Decode(data, 0, 0)) == multiset(old(tokens))
    {
      SortedForBuild(tokens);
      tokens := Sorting.Sort(tokens, TokenLeq);
      SortedIsInTupleOrder(tokens);
      hide InTupleOrder;
      data := WriteDeltas(tokens);
    }
  }

  /** The loop of `build`: each token relative to the one before it. */
  method WriteDeltas(sorted: seq<Token>) returns (data: seq<u32>)
    requires Sorting.SortedBy(sorted, TokenLeq) && AllWire(sorted)
    ensures |data| == 5 * |sorted| && Decode(data, 0, 0) == sorted
  {
    EncodedNothing(sorted);
    hide *;
    data := [];
    var previousLine: u32, previousStart: u32 := 0, 0;
    for i := 0 to |sorted|
      invariant Encoded(sorted, i, data, previousLine, previousStart)
    {
      BuildStep(sorted, i, data, previousLine, previousStart);
      var t := sorted[i];
      var deltaLine: u32 := t.line - previousLine;
      var deltaStart: u32 := if deltaLine == 0 then t.start - previousStart else t.start;
      data := data + [deltaLine, deltaStart, t.length, t.tokenType, t.modifiers];
      previousLine, previousStart := t.line, t.start;
    }
    EncodedAll(sorted, data, previousLine, previousStart);
  }

  /** The first `i` tokens are written, and the next is relative to `line` and `start`. */
  predicate Encoded(sorted: seq<Token>, i: nat, data: seq<nat>, line: nat, start: nat) {
    && i <= |sorted| && |data| == 5 * i && Decode(data, 0, 0) == sorted[..i]
    && line == Line(sorted[..i], 0) && start == Start(sorted[..i], 0)
  }

  lemma EncodedNothing(sorted: seq<Token>)
    ensures Encoded(sorted, 0, [], 0, 0)
  {
  }

  lemma EncodedAll(sorted: seq<Token>, data: seq<nat>, line: nat, start: nat)
    requires Encoded(sorted, |sorted|, data, line, start)
    ensures |data| == 5 * |sorted| && Decode(data, 0, 0) == sorted
  {
    hide Decode;
    assert sorted[..|sorted|] == sorted;
  }

  ghost predicate AllWire(ts: seq<Token>) {
    forall i :: 0 <= i < |ts| ==> Wire(ts[i])
  }

  lemma SortedForBuild(pushed: seq<Token>)
    requires forall i :: 0 <= i < |pushed| ==> Wire(pushed[i])
    ensures var sorted := Sorting.Sort(pushed, TokenLeq);
      && Sorting.SortedBy(sorted, TokenLeq) && AllWire(sorted)
      && multiset(sorted) == multiset(pushed) && |sorted| == |pushed|
  {
    TokensAreTotal();
    Sorting.SortSorts(pushed, TokenLeq);
    AllStayWire(pushed, Sorting.Sort(pushed, TokenLeq));
  }

  lemma BuildStep(sorted: seq<Token>, i: nat, data: seq<nat>, line: nat, start: nat)
    requires i < |sorted| && Sorting.SortedBy(sorted, TokenLeq) && AllWire(sorted)
    requires Encoded(sorted, i, data, line, start)
    ensures var t := sorted[i];
      && line <= t.line < 0x1_0000_0000 && t.start < 0x1_0000_0000 && (line == t.line ==> start <= t.start)
      && t.length < 0x1_0000_0000 && t.tokenType < 0x1_0000_0000 && t.modifiers < 0x1_0000_0000
      && Encoded(sorted, i + 1,
           data + [t.line - line, if t.line - line == 0 then t.start - start else t.start, t.length, t.tokenType, t.modifiers],
           t.line, t.start)
  {
    assert i > 0 ==> TokenLeq(sorted[i - 1], sorted[i]);
    hide Decode, TokenLeq;
    DecodeAppend(data, sorted[i], 0, 0);
    assert sorted[..i + 1] == sorted[..i] + [sorted[i]];
  }

  lemma IndexLines(text: Bytes, index: LineIndex.LineIndex)
    requires index == LineIndex.New(text)
    ensures forall line: nat :: index.LineStart(line).Some? <==> line < LineCount(text)
  {
    LineIndex.TableRows(text);
  }

  lemma AllStayWire(was: seq<Token>, now: seq<Token>)
    requires multiset(was) == multiset(now) && forall i :: 0 <= i < |was| ==> Wire(was[i])
    ensures forall i :: 0 <= i < |now| ==> Wire(now[i])
  {
    forall i | 0 <= i < |now| ensures Wire(now[i]) {
      assert now[i] in multiset(now);
      assert now[i] in was;
    }
  }

  lemma RangeStep(text: Bytes, range: Range, enc: Encoding, ty: nat, mods: nat, line: nat)
    ensures RangeTokens(text, range, enc, ty, mods, line) ==
      if line > range.end.line || line >= LineCount(text) then []
      else LinePiece(text, range, enc, ty, mods, line) + RangeTokens(text, range, enc, ty, mods, line + 1)
  {
  }

  /** A line the table has is the line of the text, valid and small, and its full width is its units. */
  lemma LineOfIndex(text: Bytes, index: LineIndex.LineIndex, line: nat, enc: Encoding)
    requires Fits(text) && index == LineIndex.New(text) && index.LineStart(line).Some?
    ensures line < LineCount(text) && line < 0x1_0000_0000
    ensures var start := index.LineStart(line).value; var lineText := LineText(text, line);
      && start <= index.LineEnd(line) <= |text| && lineText == text[start..index.LineEnd(line)]
      && Fits(lineText) && ByteToColumn(lineText, |lineText|, enc) == Units(lineText, enc)
  {
    hide Valid, HeadWidth, Units, ByteToColumn;
    LineIndex.TableRows(text);
    var start, end := index.LineStart(line).value, index.LineEnd(line);
    assert LfCount(text, |text|) <= |text|;
    if start > 0 { LineFeedBoundaries(text, start - 1); }
    if end < |text| { LineFeedBoundaries(text, end); }
    SliceValid(text, start, end);
    var lineText := text[start..end];
    ColumnAtBoundary(lineText, |lineText|, enc);
    assert lineText[..|lineText|] == lineText;
  }
}
