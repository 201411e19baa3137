/**
  Percent-coding (RFC 3986, sections 2.1 and 2.3) and the path operations of
  `Uri` (src/lsp/base.rs), in their non-Windows form.
 */
module UriPaths {
  import opened Strings
  import opened Ascii
  import opened Wrappers
  import Uri

  // ----- percent-coding

  /** Kept as it is: an unreserved character or the path separator. */
  predicate Keep(b: byte) {
    IsAlnum(b) || b == 0x2D || b == 0x2E || b == 0x5F || b == 0x7E || b == SLASH
  }

  /** An upper-case hex digit. */
  function HexDigit(n: nat): (d: byte)
    requires n < 16
    ensures IsHex(d) && !IsLower(d)
  {
    if n < 10 then 0x30 + n else 0x37 + n
  }

  function HexValue(d: byte): (n: nat)
    requires IsHex(d)
    ensures n < 16
  {
    if IsDigit(d) then d - 0x30 else if IsUpper(d) then d - 0x37 else d - 0x57
  }

  function EncodeByte(b: byte): (r: Bytes)
    ensures r != []
  {
    if Keep(b) then [b] else [PERCENT, HexDigit(b / 16), HexDigit(b % 16)]
  }

  function EncodePath(s: Bytes): Bytes {
    if s == [] then [] else EncodeByte(s[0]) + EncodePath(s[1..])
  }

  /** None when a percent sign is not followed by two hex digits. */
  function DecodeBytes(s: Bytes): Option<Bytes>
    decreases |s|
  {
    if s == [] then Some([])
    else if s[0] != PERCENT then Prepend([s[0]], DecodeBytes(s[1..]))
    else if |s| < 3 || !IsHex(s[1]) || !IsHex(s[2]) then None
    else Prepend([HexValue(s[1]) * 16 + HexValue(s[2])], DecodeBytes(s[3..]))
  }

  function Prepend(out: Bytes, rest: Option<Bytes>): Option<Bytes> {
    match rest
    case None => None
    case Some(bytes) => Some(out + bytes)
  }

  lemma PrependConcat(a: Bytes, b: Bytes, rest: Option<Bytes>)
    ensures Prepend(a, Prepend(b, rest)) == Prepend(a + b, rest)
    ensures Prepend([], rest) == rest
  {
    if rest.Some? {
      assert a + (b + rest.value) == (a + b) + rest.value;
      assert [] + rest.value == rest.value;
    }
  }

  function PercentDecode(s: Bytes): Option<Bytes> {
    match DecodeBytes(s)
    case None => None
    case Some(bytes) => if Valid(bytes) then Some(bytes) else None
  }

  /** What stays unescaped: the unreserved characters of RFC 3986, section 2.3, and the slash. */
  lemma KeptBytesAre(b: byte)
    ensures Keep(b) <==> b in Uri.LETTERS + Uri.DIGITS + Lit("-._~/")
  {
    Uri.ClassesAre(b);
    hide IsAlpha, IsDigit;
    var marks := Lit("-._~/");
    assert marks[0] == 0x2D && marks[1] == 0x2E && marks[2] == 0x5F && marks[3] == 0x7E && marks[4] == SLASH;
    assert b in Uri.LETTERS + Uri.DIGITS + marks <==> b in Uri.LETTERS || b in Uri.DIGITS || b in marks;
  }

  const HEX: Bytes := Lit("0123456789ABCDEF")

  /** An escape is a percent sign and the byte's two hex digits, the high one first, in upper case. */
  lemma EscapesAre(b: byte)
    ensures EncodeByte(b) ==
      if b in Uri.LETTERS + Uri.DIGITS + Lit("-._~/") then [b] else [0x25, HEX[b / 16], HEX[b % 16]]
  {
    KeptBytesAre(b);
    hide Keep;
    assert HexDigit(b / 16) == HEX[b / 16] && HexDigit(b % 16) == HEX[b % 16];
  }

  lemma {:induction false} EncodeConcat(a: Bytes, b: Bytes)
    ensures EncodePath(a + b) == EncodePath(a) + EncodePath(b)
    decreases |a|
  {
    if a == [] {
      assert a + b == b && EncodePath(a) == [];
    } else {
      EncodeFirst(a);
      EncodeFirst(a + b);
      hide *;
      EncodeConcat(a[1..], b);
      assert (a + b)[1..] == a[1..] + b;
      Reassociate(EncodeByte(a[0]), EncodePath(a[1..]), EncodePath(b));
    }
  }

  lemma EncodeFirst(s: Bytes)
    requires s != []
    ensures EncodePath(s) == EncodeByte(s[0]) + EncodePath(s[1..])
  {
  }

  lemma Reassociate(a: Bytes, b: Bytes, c: Bytes)
    ensures a + b + c == a + (b + c)
  {
  }

  /** Decoding undoes encoding, whatever the bytes. */
  lemma {:induction false} DecodeInvertsEncode(s: Bytes)
    ensures DecodeBytes(EncodePath(s)) == Some(s)
    decreases |s|
  {
    if s != [] {
      DecodeInvertsEncode(s[1..]);
      DecodeFirst(s[0], EncodePath(s[1..]));
      hide EncodeByte, DecodeBytes;
      assert s == [s[0]] + s[1..];
    }
  }

  lemma DecodeFirst(b: byte, rest: Bytes)
    ensures DecodeBytes(EncodeByte(b) + rest) == Prepend([b], DecodeBytes(rest))
  {
    hide EncodePath, HexDigit, HexValue;
    var e := EncodeByte(b);
    assert (e + rest)[|e|..] == rest;
    if !Keep(b) {
      HexPair(b);
    }
  }

  lemma HexPair(b: byte)
    ensures HexValue(HexDigit(b / 16)) * 16 + HexValue(HexDigit(b % 16)) == b
  {
  }

  lemma {:induction false} DecodeConcat(a: Bytes, b: Bytes)
    requires DecodeBytes(a).Some?
    ensures DecodeBytes(a + b) == Prepend(DecodeBytes(a).value, DecodeBytes(b))
    decreases |a|
  {
    if a == [] {
      assert a + b == b;
      PrependConcat([], [], DecodeBytes(b));
    } else {
      var k := if a[0] != PERCENT then 1 else 3;
      assert (a + b)[k..] == a[k..] + b;
      DecodeConcat(a[k..], b);
      var first := if a[0] != PERCENT then a[0] else HexValue(a[1]) * 16 + HexValue(a[2]);
      PrependConcat([first], DecodeBytes(a[k..]).value, DecodeBytes(b));
    }
  }

  /** A percent sign that two hex digits do not follow spoils the whole, wherever the scan meets it. */
  lemma BadEscapeRefuses(a: Bytes, rest: Bytes)
    requires DecodeBytes(a).Some? && !(|rest| >= 2 && IsHex(rest[0]) && IsHex(rest[1]))
    ensures PercentDecode(a + [PERCENT] + rest) == None
  {
    DecodeConcat(a, [PERCENT] + rest);
    assert a + ([PERCENT] + rest) == a + [PERCENT] + rest;
    assert DecodeBytes([PERCENT] + rest) == None;
    hide DecodeBytes;
  }

  /** Hex digits are read in either case, and bytes that are no escape as they are. */
  lemma EscapesAreRead(a: Bytes, h: byte, l: byte, rest: Bytes)
    requires DecodeBytes(a).Some? && ToUpper(h) in HEX && ToUpper(l) in HEX
    ensures IndexOf(HEX, ToUpper(h)) < 16 && IndexOf(HEX, ToUpper(l)) < 16
    ensures DecodeBytes(a + [PERCENT, h, l] + rest)
      == Prepend(DecodeBytes(a).value + [IndexOf(HEX, ToUpper(h)) * 16 + IndexOf(HEX, ToUpper(l))], DecodeBytes(rest))
  {
    hide *;
    HexValueIs(h);
    HexValueIs(l);
    OneEscape(a, h, l, rest);
  }

  lemma HexValueIs(h: byte)
    requires ToUpper(h) in HEX
    ensures IsHex(h) && HexValue(h) == IndexOf(HEX, ToUpper(h)) < 16
  {
    var i := IndexOf(HEX, ToUpper(h));
    assert i < 16 && HEX[i] == ToUpper(h) && forall j :: 0 <= j < i ==> HEX[j] != ToUpper(h);
    hide IndexOf;
    assert forall j :: 0 <= j < 16 ==> HEX[j] == if j < 10 then 0x30 + j else 0x37 + j;
  }

  lemma OneEscape(a: Bytes, h: byte, l: byte, rest: Bytes)
    requires DecodeBytes(a).Some? && IsHex(h) && IsHex(l)
    ensures DecodeBytes(a + [PERCENT, h, l] + rest)
      == Prepend(DecodeBytes(a).value + [HexValue(h) * 16 + HexValue(l)], DecodeBytes(rest))
  {
    var escape := [PERCENT, h, l];
    DecodeConcat(a, escape + rest);
    assert a + (escape + rest) == a + escape + rest;
    assert (escape + rest)[3..] == rest;
    PrependConcat(DecodeBytes(a).value, [HexValue(h) * 16 + HexValue(l)], DecodeBytes(rest));
    hide Prepend;
  }

  /** What decodes to bytes that are no UTF-8 is refused. */
  lemma DecodesToTextOnly(s: Bytes)
    ensures PercentDecode(EncodePath(s)) == if Valid(s) then Some(s) else None
  {
    DecodeInvertsEncode(s);
  }

  /** Encoded bytes are already normal: their escapes are in upper case. */
  lemma {:induction false} EncodedIsNormal(s: Bytes)
    ensures Uri.UpperEscapes(EncodePath(s)) == EncodePath(s)
    decreases |s|
  {
    if s != [] {
      EncodedIsNormal(s[1..]);
      var e := EncodePath(s);
      assert e[|EncodeByte(s[0])|..] == EncodePath(s[1..]);
    }
  }

  /** A slash comes out exactly where a slash went in, and no colon comes out. */
  lemma {:induction false} EncodeKeepsSlashes(s: Bytes)
    ensures SLASH in EncodePath(s) <==> SLASH in s
    ensures COLON !in EncodePath(s)
    ensures EncodePath(s) == [] <==> s == []
    decreases |s|
  {
    if s != [] {
      EncodeKeepsSlashes(s[1..]);
      assert s == [s[0]] + s[1..];
      assert EncodePath(s) == EncodeByte(s[0]) + EncodePath(s[1..]);
    }
  }

  method EncodePathChar(out: Bytes, ch: Bytes) returns (r: Bytes)
    requires ch != [] && HeadWidth(ch) == |ch|
    ensures r == out + EncodePath(ch)
  {
    if |ch| == 1 && Keep(ch[0]) {
      assert ch[1..] == [];
      return out + [ch[0]];
    }
    r := out;
    EncodeNothing();
    for k := 0 to |ch|
      invariant r == out + EncodePath(ch[..k])
    {
      var b := ch[k];
      EscapeOne(ch, k);
      hide EncodePath, HeadWidth, Keep;
      r := r + [PERCENT];
      r := r + [HexDigit(b / 16)];
      r := r + [HexDigit(b % 16)];
    }
    assert ch[..|ch|] == ch;
  }

  /** No byte of a character that is not kept is kept. */
  lemma EscapeOne(ch: Bytes, k: nat)
    requires k < |ch| == HeadWidth(ch) && !(|ch| == 1 && Keep(ch[0]))
    ensures EncodePath(ch[..k + 1]) == EncodePath(ch[..k]) + [PERCENT, HexDigit(ch[k] / 16), HexDigit(ch[k] % 16)]
  {
    var b := ch[k];
    assert !Keep(b) by {
      if k > 0 { HeadTailContinues(ch, k); }
    }
    hide HeadWidth;
    EncodeConcat(ch[..k], [b]);
    assert ch[..k + 1] == ch[..k] + [b] && [b][1..] == [];
  }

  /** Character by character over a whole string. */
  method EncodePathChars(out: Bytes, path: Bytes) returns (r: Bytes)
    requires Valid(path)
    ensures r == out + EncodePath(path)
  {
    hide HeadWidth, EncodePath;
    assert path[0..] == path && path[..0] == [] && EncodePath([]) == [] by { EncodeNothing(); }
    r := out;
    var at := 0;
    while at < |path|
      invariant at <= |path| && Valid(path[at..]) && r == out + EncodePath(path[..at])
    {
      var rest := path[at..];
      var w := Width(rest);
      NextChar(path, at);
      r := EncodePathChar(r, rest[..w]);
      at := at + w;
    }
    assert path[..at] == path;
  }

  lemma EncodeNothing()
    ensures EncodePath([]) == []
  {
  }

  lemma TakeMore(s: Bytes, at: nat, w: nat)
    requires at + w <= |s|
    ensures s[at..][w..] == s[at + w..] && s[..at] + s[at..][..w] == s[..at + w]
  {
  }

  lemma NextChar(path: Bytes, at: nat)
    requires at < |path| && Valid(path[at..])
    ensures var rest := path[at..]; var w := Width(rest);
      && HeadWidth(rest[..w]) == w && Valid(path[at + w..])
      && EncodePath(path[..at + w]) == EncodePath(path[..at]) + EncodePath(rest[..w])
  {
    var rest := path[at..];
    var w := Width(rest);
    HeadOfPrefix(rest, w);
    hide HeadWidth;
    TakeMore(path, at, w);
    EncodeConcat(path[..at], rest[..w]);
    hide EncodePath;
  }

  method PercentDecodeLoop(s: Bytes) returns (r: Option<Bytes>)
    ensures r == PercentDecode(s)
  {
    var out: Bytes := [];
    var i := 0;
    assert s[0..] == s;
    PrependConcat([], [], DecodeBytes(s));
    while i < |s|
      invariant i <= |s| && DecodeBytes(s) == Prepend(out, DecodeBytes(s[i..]))
    {
      var rest := s[i..];
      if s[i] == PERCENT {
        if i + 2 >= |s| || !IsHex(s[i + 1]) || !IsHex(s[i + 2]) {
          return None;
        }
        var b := HexValue(s[i + 1]) * 16 + HexValue(s[i + 2]);
        assert rest[3..] == s[i + 3..];
        PrependConcat(out, [b], DecodeBytes(s[i + 3..]));
        out := out + [b];
        i := i + 3;
      } else {
        assert rest[1..] == s[i + 1..];
        PrependConcat(out, [s[i]], DecodeBytes(s[i + 1..]));
        out := out + [s[i]];
        i := i + 1;
      }
    }
    assert s[i..] == [] && out + [] == out;
    r := if Valid(out) then Some(out) else None;
  }

  // ----- file paths

  const FILE: Bytes := Lit("file://")
  const LOCALHOST: Bytes := Lit("localhost")

  function FromFilePath(path: Bytes): Option<Bytes> {
    if path == [] || path[0] != SLASH then None else Some(FILE + EncodePath(path))
  }

  function ToFilePath(uri: Bytes): Option<Bytes> {
    if !(FILE <= uri) then None
    else
      var rest := uri[|FILE|..];
      var slash := IndexOf(rest, SLASH);
      var authority := rest[..slash];
      if authority == [] || LowerAll(authority) == LOCALHOST then PercentDecode(rest[slash..]) else None
  }

  /**
    Which URIs name a local file: those that begin with `file://`, an authority
    that is empty or `localhost` in any case, and a path, from its first slash on,
    that decodes to text. The path is what it decodes to.
   */
  lemma LocalFilesAre(authority: Bytes, path: Bytes)
    requires SLASH !in authority && (path == [] || path[0] == SLASH)
    ensures ToFilePath(Lit("file://") + authority + path) ==
      if authority == [] || LowerAll(authority) == Lit("localhost") then PercentDecode(path) else None
  {
    var uri := Lit("file://") + authority + path;
    assert uri == FILE + (authority + path);
    assert uri[|FILE|..] == authority + path && FILE <= uri;
    SlashAt(authority, path);
    hide PercentDecode, LowerAll, IndexOf;
  }

  lemma SlashAt(authority: Bytes, path: Bytes)
    requires SLASH !in authority && (path == [] || path[0] == SLASH)
    ensures var rest := authority + path; var slash := IndexOf(rest, SLASH);
      slash == |authority| && rest[..slash] == authority && rest[slash..] == path
  {
    var rest := authority + path;
    assert forall i :: 0 <= i < |authority| ==> rest[i] == authority[i];
    assert path != [] ==> rest[|authority|] == SLASH;
  }

  lemma OthersAreNoFiles(uri: Bytes)
    requires !(Lit("file://") <= uri)
    ensures ToFilePath(uri) == None
  {
  }

  /** A relative path makes no URI. */
  lemma OnlyAbsolutePaths(path: Bytes)
    ensures FromFilePath(path) == if path != [] && path[0] == SLASH then Some(Lit("file://") + EncodePath(path)) else None
  {
    hide EncodePath;
  }

  /** Every absolute UTF-8 path survives the trip through a `file` URI. */
  lemma FilePathRoundTrip(path: Bytes)
    requires Valid(path) && path != [] && path[0] == SLASH
    ensures FromFilePath(path).Some? && ToFilePath(FromFilePath(path).value) == Some(path)
  {
    var uri := FILE + EncodePath(path);
    assert uri[|FILE|..] == EncodePath(path);
    assert EncodePath(path)[0] == SLASH;
    assert IndexOf(EncodePath(path), SLASH) == 0;
    assert EncodePath(path)[0..] == EncodePath(path);
    DecodeInvertsEncode(path);
  }

  /** What `FromFilePath` builds without normalizing is normal anyway. */
  lemma FromFilePathIsNormal(path: Bytes)
    requires FromFilePath(path).Some?
    ensures Uri.Normalize(FromFilePath(path).value) == FromFilePath(path).value
  {
    hide EncodePath, Uri.UpperEscapes, Uri.SchemeLen, LowerAll;
    var uri := FromFilePath(path).value;
    FileScheme(EncodePath(path));
    Uri.SkipPlain(Lit("://"), EncodePath(path));
    EncodedIsNormal(path);
    assert uri == uri[..4] + uri[4..];
  }

  lemma FileScheme(rest: Bytes)
    ensures var uri := FILE + rest;
      && Uri.SchemeLen(uri) == 4 && LowerAll(uri[..4]) == uri[..4] && uri[4..] == Lit("://") + rest
  {
    var uri := FILE + rest;
    assert uri[4] == COLON;
    assert IndexOf(uri, COLON) == 4;
    assert uri[..4] == Lit("file");
    assert Uri.ValidScheme(uri[..4]);
  }

  method FromFilePathOf(path: Bytes) returns (uri: Option<Bytes>)
    requires Valid(path)
    ensures uri == FromFilePath(path)
  {
    if path == [] || path[0] != SLASH {
      return None;
    }
    var out := EncodePathChars(FILE, path);
    uri := Some(out);
  }

  // ----- parent and join

  /** Where the path begins: the first slash after the authority, or after the scheme. */
  function PathStart(uri: Bytes): (start: Option<nat>)
    ensures start.Some? ==> start.value < |uri| && uri[start.value] == SLASH
  {
    var after := if Uri.SchemeLen(uri) > 0 then Uri.SchemeLen(uri) + 1 else 0;
    var rest := uri[after..];
    var from := if [SLASH, SLASH] <= rest then after + 2 else after;
    var slash := from + IndexOf(uri[from..], SLASH);
    if slash < |uri| then Some(slash) else None
  }

  function Parent(uri: Bytes): Option<Bytes> {
    match PathStart(uri)
    case None => None
    case Some(start) =>
      var last := AfterLast(uri, SLASH) - 1;
      if last < start || |uri| == start + 1 then None
      else if last == start then Some(uri[..start + 1])
      else Some(uri[..last])
  }

  /** `uri` without one trailing slash. */
  function Base(uri: Bytes): Bytes {
    if uri != [] && uri[|uri| - 1] == SLASH then uri[..|uri| - 1] else uri
  }

  function Join(uri: Bytes, segment: Bytes): Bytes {
    Base(uri) + [SLASH] + EncodePath(segment)
  }

  method JoinOf(uri: Bytes, segment: Bytes) returns (joined: Bytes)
    requires Valid(segment)
    ensures joined == Join(uri, segment)
  {
    joined := Base(uri);
    joined := joined + [SLASH];
    joined := EncodePathChars(joined, segment);
  }

  /** Nothing but its root: the path is a single slash. */
  predicate BareRoot(uri: Bytes) {
    PathStart(uri) == Some(|uri| - 1)
  }

  predicate TrailingSlash(uri: Bytes) {
    uri != [] && uri[|uri| - 1] == SLASH
  }

  /** Where the authority would begin: after the scheme's colon, if there is a scheme. */
  function AfterScheme(uri: Bytes): (n: nat)
    ensures n <= |uri|
  {
    if Uri.SchemeLen(uri) > 0 then Uri.SchemeLen(uri) + 1 else 0
  }

  predicate SlashesAt(uri: Bytes, i: nat) {
    i + 1 < |uri| && uri[i] == SLASH && uri[i + 1] == SLASH
  }

  lemma TwoSlashes(uri: Bytes, after: nat)
    requires after <= |uri|
    ensures [SLASH, SLASH] <= uri[after..] <==> SlashesAt(uri, after)
  {
    if SlashesAt(uri, after) {
      assert uri[after..][..2] == [SLASH, SLASH];
    }
  }

  lemma FirstSlash(uri: Bytes, from: nat, start: nat)
    requires from <= |uri|
    ensures start == from + IndexOf(uri[from..], SLASH) && start < |uri| <==>
      from <= start < |uri| && uri[start] == SLASH && forall i :: from <= i < start ==> uri[i] != SLASH
  {
    assert forall i :: from <= i < |uri| ==> uri[from..][i - from] == uri[i];
  }

  /** The path starts at the first slash past the scheme and, after two slashes, past the authority. */
  lemma PathStartIs(uri: Bytes, start: nat)
    ensures var from := AfterScheme(uri) + (if SlashesAt(uri, AfterScheme(uri)) then 2 else 0);
      && from <= |uri|
      && (PathStart(uri) == Some(start) <==>
          from <= start < |uri| && uri[start] == SLASH && forall i :: from <= i < start ==> uri[i] != SLASH)
  {
    TwoSlashes(uri, AfterScheme(uri));
    FirstSlash(uri, AfterScheme(uri) + (if SlashesAt(uri, AfterScheme(uri)) then 2 else 0), start);
    hide Uri.SchemeLen, IndexOf;
  }

  /**
    The path start is fixed by the text up to it, unless that text is an
    authority-less root and a second slash follows.
   */
  lemma PathStartOfExtension(u: Bytes, v: Bytes)
    requires PathStart(u).Some? && u[..PathStart(u).value + 1] <= v
    requires var next := PathStart(u).value + 1;
      next < |v| && v[next] == SLASH ==> next < |u| && u[next] == SLASH
    ensures PathStart(v) == PathStart(u)
  {
    var start := PathStart(u).value;
    assert forall i :: 0 <= i <= start ==> v[i] == u[..start + 1][i] == u[i];
    SchemeOfPrefix(u, v, start);
    PathStartIs(u, start);
    PathStartIs(v, start);
  }

  /** Text that agrees up to a slash outside the scheme has the same scheme. */
  lemma SchemeOfPrefix(u: Bytes, v: Bytes, slash: nat)
    requires slash < |u| && slash < |v| && u[slash] == SLASH
    requires forall i :: 0 <= i <= slash ==> v[i] == u[i]
    ensures Uri.SchemeLen(v) == Uri.SchemeLen(u)
  {
    var c := IndexOf(u, COLON);
    var d := IndexOf(v, COLON);
    if c < slash || d < slash {
      assert c == d;
      assert u[..c] == v[..c];
    } else {
      if c < |u| { assert u[..c][slash] == SLASH; }
      if d < |v| { assert v[..d][slash] == SLASH; }
    }
  }

  lemma JoinLastSlash(uri: Bytes, segment: Bytes)
    requires SLASH !in segment
    ensures AfterLast(Join(uri, segment), SLASH) == |Base(uri)| + 1
  {
    var e := EncodePath(segment);
    var joined := Join(uri, segment);
    EncodeKeepsSlashes(segment);
    hide EncodePath;
    var at := |Base(uri)|;
    assert joined[at] == SLASH;
    forall i | at < i < |joined| ensures joined[i] != SLASH {
      assert joined[i] == e[i - at - 1];
    }
  }

  lemma JoinPathStart(uri: Bytes, segment: Bytes)
    requires PathStart(uri).Some? && SLASH !in segment
    ensures PathStart(Join(uri, segment)) == PathStart(uri)
  {
    var e := EncodePath(segment);
    var joined := Join(uri, segment);
    EncodeKeepsSlashes(segment);
    hide PathStart, EncodePath;
    var start := PathStart(uri).value;
    assert joined == if TrailingSlash(uri) then uri + e else uri + ([SLASH] + e);
    assert uri[..start + 1] == joined[..start + 1];
    PathStartOfExtension(uri, joined);
  }

  /** The parent of a joined segment is the URI it was joined to, exactly under this condition. */
  lemma ParentInvertsJoin(uri: Bytes, segment: Bytes)
    requires PathStart(uri).Some? && SLASH !in segment
    ensures Parent(Join(uri, segment)) == Some(uri) <==>
      (if BareRoot(uri) then segment != [] else !TrailingSlash(uri))
  {
    JoinLastSlash(uri, segment);
    JoinPathStart(uri, segment);
    JoinSlices(uri, segment);
    BaseCases(uri);
    hide *;
    var start := PathStart(uri).value;
    var at := |Base(uri)|;
    ParentByShape(Join(uri, segment), start, at);
  }

  lemma JoinSlices(uri: Bytes, segment: Bytes)
    ensures var joined := Join(uri, segment); var at := |Base(uri)|;
      && |joined| >= at + 1 && joined[..at] == Base(uri) && joined[..at + 1] == Base(uri) + [SLASH]
      && (|joined| == at + 1 <==> segment == [])
  {
    EncodeKeepsSlashes(segment);
    hide EncodePath;
  }

  lemma BaseCases(uri: Bytes)
    requires PathStart(uri).Some?
    ensures var start := PathStart(uri).value;
      && start <= |Base(uri)|
      && (BareRoot(uri) ==> TrailingSlash(uri) && |Base(uri)| == start && Base(uri) + [SLASH] == uri)
      && (!BareRoot(uri) ==> |Base(uri)| > start)
      && (TrailingSlash(uri) ==> |Base(uri)| < |uri|)
      && (!TrailingSlash(uri) ==> Base(uri) == uri)
  {
    hide PathStart;
  }

  lemma ParentByShape(uri: Bytes, start: nat, last: nat)
    requires PathStart(uri) == Some(start) && AfterLast(uri, SLASH) == last + 1 && start <= last
    ensures Parent(uri) == (
      if |uri| == start + 1 then None else if last == start then Some(uri[..start + 1]) else Some(uri[..last]))
  {
    hide PathStart, AfterLast;
  }

  // ----- joining and normal form

  /** The scan for escapes stops at a percent sign that is the last byte. */
  predicate EndsOnPercent(s: Bytes)
    decreases |s|
  {
    s != [] &&
    if s[0] != PERCENT then EndsOnPercent(s[1..])
    else |s| == 1 || (|s| > 3 && EndsOnPercent(s[3..]))
  }

  predicate LowerHexLetter(b: byte) {
    IsHex(b) && IsLower(b)
  }

  lemma ByteTail(b: byte)
    ensures LowerHexLetter(EncodeByte(b)[0]) <==> LowerHexLetter(b)
    ensures Uri.UpperEscapes(EncodeByte(b)[1..]) == EncodeByte(b)[1..] && PERCENT !in EncodeByte(b)[1..]
  {
    var digits := EncodeByte(b)[1..];
    if !Keep(b) {
      assert digits == [HexDigit(b / 16), HexDigit(b % 16)];
      Uri.SkipPlain(digits, []);
      assert digits + [] == digits;
    }
  }

  lemma EncodedTail(s: Bytes)
    requires s != []
    ensures EncodePath(s) != []
    ensures LowerHexLetter(EncodePath(s)[0]) <==> LowerHexLetter(s[0])
    ensures Uri.UpperEscapes(EncodePath(s)[1..]) == EncodePath(s)[1..]
  {
    EncodeFirst(s);
    EncodedIsNormal(s[1..]);
    ByteTail(s[0]);
    hide *;
    TailOfConcat(EncodeByte(s[0]), EncodePath(s[1..]));
    Uri.SkipPlain(EncodeByte(s[0])[1..], EncodePath(s[1..]));
  }

  lemma TailOfConcat(x: Bytes, y: Bytes)
    requires x != []
    ensures (x + y)[1..] == x[1..] + y && (x + y)[0] == x[0]
  {
  }

  lemma {:induction false} EscapesOfJoin(b: Bytes, segment: Bytes)
    requires Uri.UpperEscapes(b) == b
    ensures var joined := b + [SLASH] + EncodePath(segment);
      Uri.UpperEscapes(joined) == joined <==>
      !(EndsOnPercent(b) && segment != [] && LowerHexLetter(segment[0]))
    decreases |b|
  {
    var joined := b + [SLASH] + EncodePath(segment);
    if b == [] || (|b| < 3 && b[0] == PERCENT) {
      EscapesOfShortJoin(b, segment);
    } else {
      var k := Uri.EscapeSpan(b);
      var e := EncodePath(segment);
      assert b == b[..k] + b[k..];
      assert joined == b[..k] + b[k..] + ([SLASH] + e);
      assert b[k..] + ([SLASH] + e) == b[k..] + [SLASH] + e;
      JoinStep(b[..k], b[k..], [SLASH] + e);
      EscapesOfJoin(b[k..], segment);
      EndStep(b);
    }
  }

  /** One whole turn of the scan: a plain byte, or a percent sign and the two bytes after it. */
  predicate WholeSpan(x: Bytes) {
    (|x| == 1 && x[0] != PERCENT) || (|x| == 3 && x[0] == PERCENT)
  }

  lemma SpanConcat(x: Bytes, y: Bytes)
    requires WholeSpan(x)
    ensures Uri.UpperEscapes(x + y) == Uri.UpperEscapes(x) + Uri.UpperEscapes(y)
  {
    assert (x + y)[|x|..] == y && x[|x|..] == [];
  }

  lemma JoinStep(x: Bytes, y: Bytes, z: Bytes)
    requires WholeSpan(x) && Uri.UpperEscapes(x + y) == x + y
    ensures Uri.UpperEscapes(y) == y
    ensures Uri.UpperEscapes(x + y + z) == x + y + z <==> Uri.UpperEscapes(y + z) == y + z
  {
    hide *;
    SpanConcat(x, y);
    SpanConcat(x, y + z);
    assert x + (y + z) == x + y + z;
    SameHalves(Uri.UpperEscapes(x), Uri.UpperEscapes(y), x, y);
    SameHalves(Uri.UpperEscapes(x), Uri.UpperEscapes(y + z), x, y + z);
  }

  lemma EscapesOfShortJoin(b: Bytes, segment: Bytes)
    requires b == [] || (|b| < 3 && b[0] == PERCENT && Uri.UpperEscapes(b) == b)
    ensures var joined := b + [SLASH] + EncodePath(segment);
      Uri.UpperEscapes(joined) == joined <==>
      !(EndsOnPercent(b) && segment != [] && LowerHexLetter(segment[0]))
  {
    assert EndsOnPercent([]) == false;
    hide *;
    if b == [] {
      JoinAfterNothing(segment);
      assert b + [SLASH] == [SLASH];
    } else if |b| == 2 {
      JoinAfterDigit(b, segment);
    } else {
      assert b == [PERCENT];
      JoinAfterPercent(segment);
    }
  }

  lemma JoinAfterNothing(segment: Bytes)
    ensures var joined := [SLASH] + EncodePath(segment); Uri.UpperEscapes(joined) == joined
  {
    EncodedIsNormal(segment);
    var e := EncodePath(segment);
    hide EncodePath;
    Uri.SkipPlain([SLASH], e);
    hide Uri.UpperEscapes;
  }

  lemma JoinAfterDigit(b: Bytes, segment: Bytes)
    requires |b| == 2 && b[0] == PERCENT && Uri.UpperEscapes(b) == b
    ensures var joined := b + [SLASH] + EncodePath(segment); Uri.UpperEscapes(joined) == joined
    ensures !EndsOnPercent(b)
  {
    EncodedIsNormal(segment);
    var joined := b + [SLASH] + EncodePath(segment);
    hide EncodePath;
    assert joined[3..] == EncodePath(segment);
    FixedStep(b);
    FixedStep(joined);
    hide Uri.UpperEscapes;
  }

  lemma JoinAfterPercent(segment: Bytes)
    ensures var joined := [PERCENT] + [SLASH] + EncodePath(segment);
      Uri.UpperEscapes(joined) == joined <==> !(segment != [] && LowerHexLetter(segment[0]))
    ensures EndsOnPercent([PERCENT])
  {
    if segment != [] {
      EncodedTail(segment);
      hide EncodePath, Uri.UpperEscapes;
      PercentSlash(EncodePath(segment));
    } else {
      EncodeNothing();
      hide EncodePath;
      assert [PERCENT] + [SLASH] + EncodePath(segment) == [PERCENT, SLASH];
    }
  }

  /** After a bare percent sign and a slash, the byte that follows reads as an escape digit. */
  lemma PercentSlash(e: Bytes)
    requires e != [] && Uri.UpperEscapes(e[1..]) == e[1..]
    ensures var joined := [PERCENT] + [SLASH] + e;
      Uri.UpperEscapes(joined) == joined <==> !LowerHexLetter(e[0])
  {
    hide Uri.UpperEscapes;
    var joined := [PERCENT] + [SLASH] + e;
    assert joined[3..] == e[1..];
    assert joined[1] == SLASH && joined[2] == e[0];
    FixedStep(joined);
  }

  lemma EndStep(b: Bytes)
    requires b != [] && !(b[0] == PERCENT && |b| < 3)
    ensures EndsOnPercent(b) <==> EndsOnPercent(b[Uri.EscapeSpan(b)..])
  {
  }

  /** Escapes are upper-case when those of the first span and of the rest are. */
  lemma FixedStep(s: Bytes)
    requires s != []
    ensures var k := Uri.EscapeSpan(s);
      Uri.UpperEscapes(s) == s <==>
      (forall j :: 1 <= j < k ==> Uri.UpperHex(s[j]) == s[j]) && Uri.UpperEscapes(s[k..]) == s[k..]
  {
    Uri.EscapeStep(s);
    hide Uri.UpperEscapes;
    var k := Uri.EscapeSpan(s);
    var r := Uri.UpperEscapes(s);
    assert r == r[..k] + r[k..] && s == s[..k] + s[k..];
    if forall j :: 1 <= j < k ==> Uri.UpperHex(s[j]) == s[j] {
      assert r[..k] == s[..k];
    }
    if r == s {
      forall j | 1 <= j < k ensures Uri.UpperHex(s[j]) == s[j] {
        assert r[j] == s[j];
      }
    }
  }

  lemma NormalIs(uri: Bytes)
    ensures Uri.Normalize(uri) == uri <==>
      LowerAll(uri[..Uri.SchemeLen(uri)]) == uri[..Uri.SchemeLen(uri)] && Uri.UpperEscapes(uri) == uri
  {
    var n := Uri.SchemeLen(uri);
    assert uri == uri[..n] + uri[n..] && PERCENT !in uri[..n];
    hide Uri.SchemeLen, Uri.UpperEscapes, LowerAll;
    NormalHalves(uri[..n], uri[n..]);
  }

  lemma NormalHalves(p: Bytes, q: Bytes)
    requires PERCENT !in p
    ensures Uri.UpperEscapes(p + q) == p + q <==> Uri.UpperEscapes(q) == q
    ensures LowerAll(p) + Uri.UpperEscapes(q) == p + q <==> LowerAll(p) == p && Uri.UpperEscapes(q) == q
  {
    Uri.SkipPlain(p, q);
    hide *;
    SameHalves(LowerAll(p), Uri.UpperEscapes(q), p, q);
    SameHalves(p, Uri.UpperEscapes(q), p, q);
  }

  lemma SameHalves(a: Bytes, b: Bytes, c: Bytes, d: Bytes)
    requires |a| == |c|
    ensures a + b == c + d <==> a == c && b == d
  {
    if a + b == c + d {
      assert a == (a + b)[..|a|] && b == (a + b)[|a|..];
      assert c == (c + d)[..|c|] && d == (c + d)[|c|..];
    }
  }

  /**
    `Uri` promises to be normal from construction on. Joining keeps that promise
    except in one family: the base ends in a bare percent sign and the segment
    begins with a lower-case hex letter, which then reads as an escape digit.
   */
  lemma JoinKeepsNormal(uri: Bytes, segment: Bytes)
    requires Uri.Normalize(uri) == uri
    ensures Uri.Normalize(Join(uri, segment)) == Join(uri, segment) <==>
      !(EndsOnPercent(Base(uri)) && segment != [] && LowerHexLetter(segment[0]))
  {
    var b := Base(uri);
    var joined := Join(uri, segment);
    EncodeKeepsSlashes(segment);
    SchemeOfJoin(uri, segment);
    NormalIs(uri);
    NormalIs(joined);
    BaseEscapes(uri);
    EscapesOfJoin(b, segment);
  }

  lemma SchemeOfJoin(uri: Bytes, segment: Bytes)
    ensures var n := Uri.SchemeLen(uri);
      Uri.SchemeLen(Join(uri, segment)) == n && Join(uri, segment)[..n] == uri[..n]
  {
    EncodeKeepsSlashes(segment);
    ColonOfJoin(uri, EncodePath(segment));
    hide EncodePath, IndexOf, Uri.ValidScheme;
  }

  lemma ColonOfJoin(uri: Bytes, e: Bytes)
    requires COLON !in e
    ensures var joined := Base(uri) + [SLASH] + e; var colon := IndexOf(uri, COLON);
      && IndexOf(joined, COLON) == (if colon < |uri| then colon else |joined|)
      && (colon < |uri| ==> joined[..colon] == uri[..colon])
  {
    var b := Base(uri);
    var joined := b + [SLASH] + e;
    var colon := IndexOf(uri, COLON);
    hide IndexOf;
    assert forall i :: |b| < i < |joined| ==> joined[i] == e[i - |b| - 1];
    assert forall i :: 0 <= i < |b| ==> joined[i] == uri[i];
    if colon < |uri| {
      assert colon < |b| && IndexOf(joined, COLON) == colon && joined[..colon] == uri[..colon];
    } else {
      assert IndexOf(joined, COLON) == |joined|;
    }
  }

  /** Dropping a trailing slash drops no escape digit. */
  lemma BaseEscapes(uri: Bytes)
    requires Uri.UpperEscapes(uri) == uri
    ensures Uri.UpperEscapes(Base(uri)) == Base(uri)
  {
    if TrailingSlash(uri) {
      PrefixEscapes(uri, |uri| - 1);
    }
  }

  lemma {:induction false} PrefixEscapes(s: Bytes, n: nat)
    requires n <= |s|
    ensures Uri.UpperEscapes(s[..n]) == Uri.UpperEscapes(s)[..n]
    decreases |s|
  {
    hide Uri.UpperEscapes;
    var p := s[..n];
    if n > 0 {
      var k := Uri.EscapeSpan(s);
      Uri.EscapeStep(s);
      Uri.EscapeStep(p);
      if k < n {
        assert p[k..] == s[k..][..n - k];
        PrefixEscapes(s[k..], n - k);
        SameUpTo(Uri.UpperEscapes(p), Uri.UpperEscapes(s), k);
      }
    }
  }

  lemma SameUpTo(a: Bytes, b: Bytes, k: nat)
    requires k <= |a| <= |b| && a[k..] == b[k..][..|a| - k]
    requires forall j :: 0 <= j < k ==> a[j] == b[j]
    ensures a == b[..|a|]
  {
    forall j | k <= j < |a| ensures a[j] == b[j] {
      assert a[k..][j - k] == b[k..][..|a| - k][j - k];
    }
  }

  lemma SchemeOfFile(rest: Bytes)
    ensures Uri.SchemeLen(Lit("file") + [COLON] + rest) == 4
  {
    var uri := Lit("file") + [COLON] + rest;
    assert uri[4] == COLON && uri[..4] == Lit("file");
    assert IndexOf(uri, COLON) == 4;
  }

  const BROKEN: Bytes := Lit("file") + [COLON] + (Lit("///a") + [PERCENT])

  lemma BrokenIsNormal()
    ensures Uri.Normalize(BROKEN) == BROKEN && EndsOnPercent(BROKEN)
  {
    var plain := Lit("file") + [COLON] + Lit("///a");
    assert BROKEN == plain + [PERCENT] && PERCENT !in plain;
    SchemeOfFile(Lit("///a") + [PERCENT]);
    Uri.SkipPlain(plain, [PERCENT]);
    PlainThenPercent(plain);
    NormalIs(BROKEN);
    assert BROKEN[..4] == Lit("file");
    hide Uri.Normalize, EndsOnPercent, Lit;
  }

  /** `file:///a%` is normal, but joining `b` to it is not. */
  lemma JoinCanBreakNormal()
    ensures Uri.Normalize(BROKEN) == BROKEN && Uri.Normalize(Join(BROKEN, Lit("b"))) != Join(BROKEN, Lit("b"))
  {
    BrokenIsNormal();
    JoinKeepsNormal(BROKEN, Lit("b"));
    assert Base(BROKEN) == BROKEN;
    hide Uri.Normalize, Join, EndsOnPercent;
  }

  lemma {:induction false} PlainThenPercent(p: Bytes)
    requires PERCENT !in p
    ensures EndsOnPercent(p + [PERCENT])
    decreases |p|
  {
    if p != [] {
      PlainThenPercent(p[1..]);
      assert (p + [PERCENT])[1..] == p[1..] + [PERCENT];
    }
  }

  /** A parent is shorter and keeps the text up to the path start, so its root is the same. */
  lemma ParentShortens(uri: Bytes)
    requires PathStart(uri).Some?
    ensures Parent(uri).None? <==> BareRoot(uri)
    ensures Parent(uri).Some? ==>
      var p := Parent(uri).value;
      && |p| < |uri| && PathStart(p) == PathStart(uri)
      && p[..PathStart(uri).value + 1] == uri[..PathStart(uri).value + 1]
  {
    var start := PathStart(uri).value;
    assert AfterLast(uri, SLASH) > start;
    if Parent(uri).Some? {
      PathStartOfExtension(uri, Parent(uri).value);
    }
  }

  /** Take parents until there is none. */
  function TopmostAncestor(uri: Bytes): Bytes
    requires PathStart(uri).Some?
    decreases |uri|
  {
    ParentShortens(uri);
    match Parent(uri)
    case None => uri
    case Some(p) => TopmostAncestor(p)
  }

  /** From any URI with a path, repeated `parent` ends at the bare root of that path. */
  lemma {:induction false} AncestorsEndAtRoot(uri: Bytes)
    requires PathStart(uri).Some?
    ensures TopmostAncestor(uri) == uri[..PathStart(uri).value + 1]
    ensures BareRoot(TopmostAncestor(uri))
    decreases |uri|
  {
    ParentShortens(uri);
    if Parent(uri).Some? {
      AncestorsEndAtRoot(Parent(uri).value);
    } else {
      assert uri[..|uri|] == uri;
    }
  }
}
