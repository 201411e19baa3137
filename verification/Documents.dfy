/**
  `Documents` (src/documents.rs): the store of open texts, patched in place by
  incremental changes, with a lazily built line index cached beside each text.
 */
module Documents {
  import opened Strings
  import opened Text
  import opened Wrappers
  import opened Edits
  import LineIndex
  import TextScan
  import Uri

  datatype Document = Document(languageId: Bytes, version: int, text: Bytes)

  /** A document and its cached index, absent until first used after an edit. */
  datatype Entry = Entry(document: Document, index: Option<LineIndex.LineIndex>)

  type Entries = map<Bytes, Entry>

  /** One content change: a patched range, or the whole text when there is none. */
  datatype Change = Change(range: Option<Range>, text: Bytes)

  datatype ChangeOutcome = Applied | Ignored | Panicked

  /** What can happen to the store. `Looked` is any query that uses the line index. */
  datatype Op =
    | Opened(uri: Bytes, document: Document)
    | Changed(uri: Bytes, version: int, changes: seq<Change>)
    | Closed(uri: Bytes)
    | Looked(key: Bytes)

  // ----- changing one text

  /** None when the range is inverted, where the in-place replacement panics. */
  function ApplyChange(text: Bytes, change: Change, enc: Encoding): Option<Bytes> {
    match change.range
    case None => Some(change.text)
    case Some(range) =>
      var start := PositionToOffset(text, range.start, enc);
      var end := PositionToOffset(text, range.end, enc);
      if start <= end then Some(Patch(text, start, end, change.text)) else None
  }

  /** The text after the changes, or as they had left it when one of them panicked. */
  function Patched(text: Bytes, changes: seq<Change>, enc: Encoding): Bytes
    decreases |changes|
  {
    if changes == [] then text
    else match ApplyChange(text, changes[0], enc)
      case None => text
      case Some(next) => Patched(next, changes[1..], enc)
  }

  predicate Panics(text: Bytes, changes: seq<Change>, enc: Encoding)
    decreases |changes|
  {
    changes != [] &&
    match ApplyChange(text, changes[0], enc)
    case None => true
    case Some(next) => Panics(next, changes[1..], enc)
  }

  /** Every text along the way is small enough for the column arithmetic. */
  predicate ChangesFit(text: Bytes, changes: seq<Change>, enc: Encoding)
    decreases |changes|
  {
    Fits(text) &&
    (changes == [] ||
     match ApplyChange(text, changes[0], enc)
     case None => true
     case Some(next) => ChangesFit(next, changes[1..], enc))
  }

  /** Ranges whose start is not after their end, the ones the protocol allows. */
  predicate InOrder(changes: seq<Change>) {
    forall i :: 0 <= i < |changes| ==>
      changes[i].range.Some? ==> Before(changes[i].range.value.start, changes[i].range.value.end)
  }

  /** Well-formed ranges never panic, whatever text they meet: offsets grow with positions. */
  lemma {:induction false} InOrderNeverPanics(text: Bytes, changes: seq<Change>, enc: Encoding)
    requires InOrder(changes)
    ensures !Panics(text, changes, enc)
    decreases |changes|
  {
    if changes != [] {
      var change := changes[0];
      if change.range.Some? {
        PositionMonotone(text, change.range.value.start, change.range.value.end, enc);
      }
      match ApplyChange(text, change, enc)
      case None =>
      case Some(next) => InOrderNeverPanics(next, changes[1..], enc);
    }
  }

  lemma {:induction false} PatchedConcat(text: Bytes, a: seq<Change>, b: seq<Change>, enc: Encoding)
    requires !Panics(text, a, enc)
    ensures Patched(text, a + b, enc) == Patched(Patched(text, a, enc), b, enc)
    ensures Panics(text, a + b, enc) <==> Panics(Patched(text, a, enc), b, enc)
    decreases |a|
  {
    hide ApplyChange;
    if a == [] {
      assert a + b == b;
    } else {
      PatchedConcat(ApplyChange(text, a[0], enc).value, a[1..], b, enc);
      assert (a + b)[1..] == a[1..] + b;
    }
  }

  // ----- the store, one operation at a time

  /** The key a raw string finds: itself, or else its normalized spelling. */
  function Lookup(entries: Entries, key: Bytes): Option<Bytes> {
    if key in entries then Some(key)
    else if Uri.Normalize(key) != key && Uri.Normalize(key) in entries then Some(Uri.Normalize(key))
    else None
  }

  predicate Ignores(entries: Entries, uri: Bytes, version: int) {
    uri !in entries || version < entries[uri].document.version
  }

  function Step(entries: Entries, op: Op, enc: Encoding): Entries {
    match op
    case Opened(uri, document) => entries[uri := Entry(document, None)]
    case Changed(uri, version, changes) =>
      if Ignores(entries, uri, version) then entries
      else
        var was := entries[uri];
        var text := Patched(was.document.text, changes, enc);
        if Panics(was.document.text, changes, enc) then
          entries[uri := was.(document := was.document.(text := text))]
        else
          entries[uri := Entry(was.document.(text := text, version := version), None)]
    case Closed(uri) => entries - {uri}
    case Looked(key) =>
      match Lookup(entries, key)
      case None => entries
      case Some(uri) => entries[uri := Warm(entries[uri])]
  }

  /** The entry with its index built, as `get_or_init` leaves it. */
  function Warm(entry: Entry): Entry {
    if entry.index.Some? then entry else entry.(index := Some(LineIndex.New(entry.document.text)))
  }

  function Run(entries: Entries, ops: seq<Op>, enc: Encoding): Entries
    decreases |ops|
  {
    if ops == [] then entries else Run(Step(entries, ops[0], enc), ops[1..], enc)
  }

  predicate CoherentEntry(entry: Entry) {
    entry.index.Some? ==> entry.index.value == LineIndex.New(entry.document.text)
  }

  predicate Coherent(entries: Entries) {
    forall uri :: uri in entries ==> CoherentEntry(entries[uri])
  }

  predicate PanicsAt(entries: Entries, op: Op, enc: Encoding) {
    op.Changed? && !Ignores(entries, op.uri, op.version) && Panics(entries[op.uri].document.text, op.changes, enc)
  }

  predicate NeverPanics(entries: Entries, ops: seq<Op>, enc: Encoding)
    decreases |ops|
  {
    ops == [] || (!PanicsAt(entries, ops[0], enc) && NeverPanics(Step(entries, ops[0], enc), ops[1..], enc))
  }

  /**
    One operation keeps the caches coherent, except exactly when a change panics
    halfway, an index was cached, and the partial edit changed the text's length
    or the place of a line feed.
   */
  lemma StepCoherent(entries: Entries, op: Op, enc: Encoding)
    requires Coherent(entries)
    ensures Coherent(Step(entries, op, enc)) <==>
      !(PanicsAt(entries, op, enc) && entries[op.uri].index.Some?
        && !LineIndex.SameLines(entries[op.uri].document.text, Patched(entries[op.uri].document.text, op.changes, enc)))
  {
    var after := Step(entries, op, enc);
    if PanicsAt(entries, op, enc) {
      assert op.uri in after;
      var was := entries[op.uri].document.text;
      LineIndex.SameTable(was, Patched(was, op.changes, enc));
      hide LineIndex.New, LineIndex.SameLines;
    }
  }

  /** Over every run without panics, a cached index is absent or belongs to the current text. */
  lemma {:induction false} CachesStayCoherent(entries: Entries, ops: seq<Op>, enc: Encoding)
    requires Coherent(entries) && NeverPanics(entries, ops, enc)
    ensures Coherent(Run(entries, ops, enc))
    decreases |ops|
  {
    if ops != [] {
      StepCoherent(entries, ops[0], enc);
      CachesStayCoherent(Step(entries, ops[0], enc), ops[1..], enc);
    }
  }

  predicate AllInOrder(ops: seq<Op>) {
    forall i :: 0 <= i < |ops| ==> ops[i].Changed? ==> InOrder(ops[i].changes)
  }

  /** Runs whose ranges are all well-formed have no panics. */
  lemma {:induction false} InOrderRunNeverPanics(entries: Entries, ops: seq<Op>, enc: Encoding)
    requires AllInOrder(ops)
    ensures NeverPanics(entries, ops, enc)
    decreases |ops|
  {
    if ops != [] {
      if ops[0].Changed? && ops[0].uri in entries {
        InOrderNeverPanics(entries[ops[0].uri].document.text, ops[0].changes, enc);
      }
      InOrderRunNeverPanics(Step(entries, ops[0], enc), ops[1..], enc);
    }
  }

  const EMPTY: Bytes := []
  const FEED: Bytes := [LF]
  const INVERTED := Range(Position(1, 0), Position(0, 0))
  const HALFWAY := [Change(None, FEED), Change(Some(INVERTED), EMPTY)]

  lemma HalfwayPanics()
    ensures Panics(EMPTY, HALFWAY, Utf8) && Patched(EMPTY, HALFWAY, Utf8) == FEED
    ensures PositionToOffset(FEED, Position(1, 0), Utf8) == 1
  {
    assert ApplyChange(EMPTY, HALFWAY[0], Utf8) == Some(FEED);
    assert HALFWAY[1..] == [Change(Some(INVERTED), EMPTY)];
    assert OffsetFrom(FEED, 0, 1, 0, Utf8) == OffsetFrom(FEED, 1, 0, 0, Utf8) == 1;
    assert OffsetFrom(FEED, 0, 0, 0, Utf8) == 0;
    assert Panics(FEED, HALFWAY[1..], Utf8) && Patched(FEED, HALFWAY[1..], Utf8) == FEED;
  }

  /**
    The panic case happens: replace the text, then hit an inverted range. The
    text is the new one, the cached index still the old one, and a query through
    it gives the start of the second line as 0, where it is 1.
   */
  lemma PanicLeavesStaleIndex()
    ensures exists entries: Entries, op: Op ::
      && Coherent(entries) && PanicsAt(entries, op, Utf8) && !Coherent(Step(entries, op, Utf8))
      && Misleads(Step(entries, op, Utf8), op.uri, Position(1, 0), Utf8)
  {
    var entries: Entries := map[[] := Entry(Document([], 1, EMPTY), Some(LineIndex.New(EMPTY)))];
    var op := Changed([], 1, HALFWAY);
    HalfwayPanics();
    hide Panics, Patched;
    StepCoherent(entries, op, Utf8);
    assert PanicsAt(entries, op, Utf8);
    assert LineIndex.New(EMPTY) == LineIndex.LineIndex([0], 0);
    assert Misleads(Step(entries, op, Utf8), op.uri, Position(1, 0), Utf8);
  }

  /** The cached index answers, and not what the current text says. */
  predicate Misleads(entries: Entries, uri: Bytes, p: Position, enc: Encoding) {
    && uri in entries && entries[uri].index.Some?
    && var document := entries[uri].document;
       var answer := entries[uri].index.value.OffsetIn(document.text, p, enc);
       answer.Some? && answer.value != PositionToOffset(document.text, p, enc)
  }

  // ----- whole histories of one document

  /** The operations that neither open nor close `uri`. */
  predicate StaysOpen(uri: Bytes, ops: seq<Op>) {
    forall i :: 0 <= i < |ops| ==> !(ops[i].Opened? && ops[i].uri == uri) && !(ops[i].Closed? && ops[i].uri == uri)
  }

  /** The content changes of the operations that are not stale when their turn comes, in order. */
  function AcceptedChanges(uri: Bytes, version: int, ops: seq<Op>): seq<Change>
    decreases |ops|
  {
    if ops == [] then []
    else if ops[0].Changed? && ops[0].uri == uri && ops[0].version >= version then
      ops[0].changes + AcceptedChanges(uri, ops[0].version, ops[1..])
    else AcceptedChanges(uri, version, ops[1..])
  }

  /**
    While a document stays open its version never decreases, and its text is the
    accepted changes folded, in order, over the text it had; lookups and other
    documents make no difference.
   */
  lemma {:induction false} TextIsFoldOfAcceptedChanges(entries: Entries, uri: Bytes, ops: seq<Op>, enc: Encoding)
    requires uri in entries && StaysOpen(uri, ops) && NeverPanics(entries, ops, enc)
    ensures uri in Run(entries, ops, enc)
    ensures var was := entries[uri].document; var now := Run(entries, ops, enc)[uri].document;
      && now.version >= was.version && now.languageId == was.languageId
      && now.text == Patched(was.text, AcceptedChanges(uri, was.version, ops), enc)
      && !Panics(was.text, AcceptedChanges(uri, was.version, ops), enc)
    decreases |ops|
  {
    hide ApplyChange, Lookup;
    if ops != [] {
      var next := Step(entries, ops[0], enc);
      StepKeepsOthers(entries, ops[0], uri, enc);
      assert forall i :: 0 <= i < |ops[1..]| ==> ops[1..][i] == ops[i + 1];
      TextIsFoldOfAcceptedChanges(next, uri, ops[1..], enc);
      if ops[0].Changed? && ops[0].uri == uri && ops[0].version >= entries[uri].document.version {
        PatchedConcat(entries[uri].document.text, ops[0].changes,
                      AcceptedChanges(uri, ops[0].version, ops[1..]), enc);
      }
    }
  }

  /** Only an accepted change of `uri` itself touches the open document at `uri`. */
  lemma StepKeepsOthers(entries: Entries, op: Op, uri: Bytes, enc: Encoding)
    requires uri in entries && StaysOpen(uri, [op])
    ensures uri in Step(entries, op, enc)
    ensures !(op.Changed? && op.uri == uri && op.version >= entries[uri].document.version) ==>
      Step(entries, op, enc)[uri].document == entries[uri].document
  {
    assert [op][0] == op;
  }

  // ----- from open to close

  lemma {:induction false} RunConcat(entries: Entries, a: seq<Op>, b: seq<Op>, enc: Encoding)
    ensures Run(entries, a + b, enc) == Run(Run(entries, a, enc), b, enc)
    decreases |a|
  {
    hide Step;
    if a == [] {
      assert a + b == b;
    } else {
      RunConcat(Step(entries, a[0], enc), a[1..], b, enc);
      assert (a + b)[1..] == a[1..] + b;
    }
  }

  lemma RunOne(entries: Entries, op: Op, enc: Encoding)
    ensures Run(entries, [op], enc) == Step(entries, op, enc)
  {
    hide Step;
    assert [op][1..] == [];
  }

  /** The version of the last change of `uri` that is not stale when its turn comes. */
  function LastVersion(uri: Bytes, version: int, ops: seq<Op>): int
    decreases |ops|
  {
    if ops == [] then version
    else if ops[0].Changed? && ops[0].uri == uri && ops[0].version >= version then
      LastVersion(uri, ops[0].version, ops[1..])
    else LastVersion(uri, version, ops[1..])
  }

  lemma {:induction false} VersionIsLastAccepted(entries: Entries, uri: Bytes, ops: seq<Op>, enc: Encoding)
    requires uri in entries && StaysOpen(uri, ops) && NeverPanics(entries, ops, enc)
    ensures uri in Run(entries, ops, enc)
    ensures Run(entries, ops, enc)[uri].document.version == LastVersion(uri, entries[uri].document.version, ops)
    decreases |ops|
  {
    hide ApplyChange, Lookup;
    if ops != [] {
      var next := Step(entries, ops[0], enc);
      StepKeepsOthers(entries, ops[0], uri, enc);
      assert forall i :: 0 <= i < |ops[1..]| ==> ops[1..][i] == ops[i + 1];
      VersionIsLastAccepted(next, uri, ops[1..], enc);
    }
  }

  /**
    The whole life of a document: whatever came before, once opened it has the
    text, version and language it was opened with, and then its accepted
    changes folded over that text, and the version of the last of them.
   */
  lemma DocumentLife(before: seq<Op>, uri: Bytes, document: Document, later: seq<Op>, enc: Encoding)
    requires StaysOpen(uri, later) && NeverPanics(Run(map[], before + [Opened(uri, document)], enc), later, enc)
    ensures var now := Run(map[], before + [Opened(uri, document)] + later, enc);
      && uri in now
      && now[uri].document == Document(
           document.languageId, LastVersion(uri, document.version, later),
           Patched(document.text, AcceptedChanges(uri, document.version, later), enc))
  {
    var opening := before + [Opened(uri, document)];
    RunConcat(map[], before, [Opened(uri, document)], enc);
    RunOne(Run(map[], before, enc), Opened(uri, document), enc);
    RunConcat(map[], opening, later, enc);
    var first := Run(map[], opening, enc);
    assert uri in first && first[uri].document == document;
    hide Run, Step, Patched, AcceptedChanges;
    TextIsFoldOfAcceptedChanges(first, uri, later, enc);
    VersionIsLastAccepted(first, uri, later, enc);
  }

  predicate NeverOpens(uri: Bytes, ops: seq<Op>) {
    forall i :: 0 <= i < |ops| ==> !(ops[i].Opened? && ops[i].uri == uri)
  }

  lemma {:induction false} StaysAbsent(entries: Entries, uri: Bytes, ops: seq<Op>, enc: Encoding)
    requires uri !in entries && NeverOpens(uri, ops)
    ensures uri !in Run(entries, ops, enc)
    decreases |ops|
  {
    if ops != [] {
      assert forall i :: 0 <= i < |ops[1..]| ==> ops[1..][i] == ops[i + 1];
      assert uri !in Step(entries, ops[0], enc);
      hide Step;
      StaysAbsent(Step(entries, ops[0], enc), uri, ops[1..], enc);
    }
  }

  /** A document is absent before it is first opened, and from its close until it is opened again. */
  lemma AbsentUntilOpened(before: seq<Op>, uri: Bytes, later: seq<Op>, enc: Encoding)
    requires NeverOpens(uri, later)
    ensures uri !in Run(map[], later, enc)
    ensures uri !in Run(map[], before + [Closed(uri)] + later, enc)
  {
    StaysAbsent(map[], uri, later, enc);
    RunConcat(map[], before, [Closed(uri)], enc);
    RunOne(Run(map[], before, enc), Closed(uri), enc);
    RunConcat(map[], before + [Closed(uri)], later, enc);
    var closed := Run(map[], before + [Closed(uri)], enc);
    assert uri !in closed;
    hide Run, Step;
    StaysAbsent(closed, uri, later, enc);
  }

  // ----- what single changes leave

  /** A change without a range replaces the whole text, whatever it was. */
  lemma WholeTextReplaces(text: Bytes, changes: seq<Change>, enc: Encoding)
    requires changes != [] && changes[|changes| - 1].range.None? && !Panics(text, changes, enc)
    ensures Patched(text, changes, enc) == changes[|changes| - 1].text
  {
    var n := |changes| - 1;
    assert changes == changes[..n] + [changes[n]];
    if Panics(text, changes[..n], enc) {
      PanicsInPrefix(text, changes[..n], [changes[n]], enc);
    }
    PatchedConcat(text, changes[..n], [changes[n]], enc);
    assert [changes[n]][1..] == [];
    assert ApplyChange(Patched(text, changes[..n], enc), changes[n], enc) == Some(changes[n].text);
  }

  lemma {:induction false} PanicsInPrefix(text: Bytes, a: seq<Change>, b: seq<Change>, enc: Encoding)
    requires Panics(text, a, enc)
    ensures Panics(text, a + b, enc) && Patched(text, a + b, enc) == Patched(text, a, enc)
    decreases |a|
  {
    hide ApplyChange;
    match ApplyChange(text, a[0], enc)
    case None => assert (a + b)[0] == a[0];
    case Some(next) =>
      PanicsInPrefix(next, a[1..], b, enc);
      assert (a + b)[1..] == a[1..] + b;
  }

  /**
    When a change panics, the document keeps its version, its language and its
    cached index, and its text has exactly the changes before that one.
   */
  lemma PanicKeepsWhatCameBefore(entries: Entries, uri: Bytes, version: int, changes: seq<Change>, enc: Encoding)
    returns (k: nat)
    requires PanicsAt(entries, Changed(uri, version, changes), enc)
    ensures k < |changes|
    ensures var was := entries[uri]; var now := Step(entries, Changed(uri, version, changes), enc);
      && uri in now && now[uri].index == was.index
      && now[uri].document.version == was.document.version && now[uri].document.languageId == was.document.languageId
      && now[uri].document.text == Patched(was.document.text, changes[..k], enc)
      && !Panics(was.document.text, changes[..k], enc)
      && ApplyChange(now[uri].document.text, changes[k], enc) == None
  {
    k := PanicPoint(entries[uri].document.text, changes, enc);
  }

  lemma {:induction false} PanicPoint(text: Bytes, changes: seq<Change>, enc: Encoding) returns (k: nat)
    requires Panics(text, changes, enc)
    ensures k < |changes| && !Panics(text, changes[..k], enc)
    ensures Patched(text, changes, enc) == Patched(text, changes[..k], enc)
    ensures ApplyChange(Patched(text, changes, enc), changes[k], enc) == None
    decreases |changes|
  {
    hide ApplyChange;
    match ApplyChange(text, changes[0], enc)
    case None => k := 0;
    case Some(next) =>
      var j := PanicPoint(next, changes[1..], enc);
      k := j + 1;
      assert changes[..k][1..] == changes[1..][..j] && changes[..k][0] == changes[0];
  }

  /** A change panics exactly when its range resolves inverted in the text it meets. */
  lemma PanicsWhenInverted(text: Bytes, change: Change, enc: Encoding)
    ensures ApplyChange(text, change, enc) == None <==>
      change.range.Some?
      && PositionToOffset(text, change.range.value.start, enc) > PositionToOffset(text, change.range.value.end, enc)
  {
  }

  // ----- when an index is cached

  /** Whether `uri` has been looked at since its last accepted change. */
  function LookedSince(uri: Bytes, version: int, looked: bool, ops: seq<Op>): bool
    decreases |ops|
  {
    if ops == [] then looked
    else match ops[0]
      case Changed(u, v, _) =>
        if u == uri && v >= version then LookedSince(uri, v, false, ops[1..]) else LookedSince(uri, version, looked, ops[1..])
      case Looked(key) => LookedSince(uri, version, looked || Uri.Normalize(key) == uri, ops[1..])
      case _ => LookedSince(uri, version, looked, ops[1..])
  }

  lemma CachedAfterStep(entries: Entries, uri: Bytes, op: Op, enc: Encoding)
    requires uri in entries && StaysOpen(uri, [op]) && !PanicsAt(entries, op, enc) && KeysNormal(entries)
    ensures uri in Step(entries, op, enc)
    ensures Step(entries, op, enc)[uri].index.Some? <==>
      match op
      case Changed(u, v, _) => !(u == uri && v >= entries[uri].document.version) && entries[uri].index.Some?
      case Looked(key) => entries[uri].index.Some? || Uri.Normalize(key) == uri
      case _ => entries[uri].index.Some?
  {
    assert [op][0] == op;
    if op.Looked? {
      LookupIsByNormalForm(entries, op.key);
    }
    hide Patched, Panics, Uri.Normalize, Lookup, LineIndex.New;
  }

  lemma VersionAfterStep(entries: Entries, uri: Bytes, op: Op, enc: Encoding)
    requires uri in entries && StaysOpen(uri, [op]) && !PanicsAt(entries, op, enc)
    ensures uri in Step(entries, op, enc)
    ensures Step(entries, op, enc)[uri].document.version ==
      if op.Changed? && op.uri == uri && op.version >= entries[uri].document.version then op.version
      else entries[uri].document.version
  {
    assert [op][0] == op;
    hide Patched, Panics, Lookup, LineIndex.New;
  }

  /** Over every run without panics, an index is cached exactly from a look until the next accepted change. */
  lemma {:induction false} CachedFromLookToChange(entries: Entries, uri: Bytes, ops: seq<Op>, enc: Encoding)
    requires uri in entries && StaysOpen(uri, ops) && NeverPanics(entries, ops, enc)
    requires KeysNormal(entries) && UrisNormal(ops)
    ensures uri in Run(entries, ops, enc)
    ensures Run(entries, ops, enc)[uri].index.Some? <==>
      LookedSince(uri, entries[uri].document.version, entries[uri].index.Some?, ops)
    decreases |ops|
  {
    if ops != [] {
      var next := Step(entries, ops[0], enc);
      CachedAfterStep(entries, uri, ops[0], enc);
      VersionAfterStep(entries, uri, ops[0], enc);
      KeysAfterStep(entries, ops[0], enc);
      assert forall i :: 0 <= i < |ops[1..]| ==> ops[1..][i] == ops[i + 1];
      hide Step, KeysNormal, Uri.Normalize, PanicsAt;
      CachedFromLookToChange(next, uri, ops[1..], enc);
    }
  }

  // ----- lookups by raw string

  predicate KeysNormal(entries: Entries) {
    forall uri :: uri in entries ==> Uri.Normalize(uri) == uri
  }

  /** Operations whose URIs went through the constructor, as deserialized ones do. */
  predicate UrisNormal(ops: seq<Op>) {
    forall i :: 0 <= i < |ops| ==> !ops[i].Looked? ==> Uri.Normalize(ops[i].uri) == ops[i].uri
  }

  /** Over every run of such operations the keys stay normalized; a lookup may use any string. */
  lemma {:induction false} KeysStayNormal(entries: Entries, ops: seq<Op>, enc: Encoding)
    requires KeysNormal(entries) && UrisNormal(ops)
    ensures KeysNormal(Run(entries, ops, enc))
    decreases |ops|
  {
    if ops != [] {
      KeysAfterStep(entries, ops[0], enc);
      assert forall i :: 0 <= i < |ops[1..]| ==> ops[1..][i] == ops[i + 1];
      hide Step, KeysNormal;
      KeysStayNormal(Step(entries, ops[0], enc), ops[1..], enc);
    }
  }

  lemma KeysAfterStep(entries: Entries, op: Op, enc: Encoding)
    requires KeysNormal(entries) && (!op.Looked? ==> Uri.Normalize(op.uri) == op.uri)
    ensures KeysNormal(Step(entries, op, enc))
  {
    hide Uri.Normalize, Patched, Panics;
  }

  /** So over whole runs any two spellings of one URI find the same document. */
  lemma SpellingsAgreeAfterRun(ops: seq<Op>, a: Bytes, b: Bytes, enc: Encoding)
    requires UrisNormal(ops) && Uri.SameUri(a, b)
    ensures Lookup(Run(map[], ops, enc), a) == Lookup(Run(map[], ops, enc), b)
  {
    KeysStayNormal(map[], ops, enc);
    hide Run, Lookup;
    SpellingsAgree(Run(map[], ops, enc), a, b);
  }

  /** With normalized keys, a raw string finds exactly what its normalized spelling would. */
  lemma LookupIsByNormalForm(entries: Entries, key: Bytes)
    requires KeysNormal(entries)
    ensures Lookup(entries, key) ==
      if Uri.Normalize(key) in entries then Some(Uri.Normalize(key)) else None
  {
    hide Uri.Normalize;
  }

  /** So any two spellings of one URI find the same document. */
  lemma SpellingsAgree(entries: Entries, a: Bytes, b: Bytes)
    requires KeysNormal(entries) && Uri.SameUri(a, b)
    ensures Lookup(entries, a) == Lookup(entries, b)
  {
    Uri.NormalizeEqual(a, b);
    LookupIsByNormalForm(entries, a);
    LookupIsByNormalForm(entries, b);
  }

  // ----- the store

  /** `now` is `was` with the first `k` changes applied. */
  ghost predicate PartlyPatched(was: Bytes, now: Bytes, changes: seq<Change>, k: nat, enc: Encoding) {
    && k <= |changes| && ChangesFit(now, changes[k..], enc)
    && Patched(now, changes[k..], enc) == Patched(was, changes, enc)
    && (Panics(now, changes[k..], enc) <==> Panics(was, changes, enc))
  }

  lemma StartPatching(text: Bytes, changes: seq<Change>, enc: Encoding)
    requires ChangesFit(text, changes, enc)
    ensures PartlyPatched(text, text, changes, 0, enc)
  {
    assert changes[0..] == changes;
  }

  lemma PatchFurther(was: Bytes, now: Bytes, changes: seq<Change>, k: nat, enc: Encoding)
    requires k < |changes| && PartlyPatched(was, now, changes, k, enc)
    ensures Fits(now)
    ensures match ApplyChange(now, changes[k], enc)
      case None => Panics(was, changes, enc) && Patched(was, changes, enc) == now
      case Some(next) => PartlyPatched(was, next, changes, k + 1, enc)
  {
    assert changes[k..][0] == changes[k] && changes[k..][1..] == changes[k + 1..];
    hide ApplyChange;
  }

  lemma FinishPatching(was: Bytes, now: Bytes, changes: seq<Change>, enc: Encoding)
    requires PartlyPatched(was, now, changes, |changes|, enc)
    ensures !Panics(was, changes, enc) && Patched(was, changes, enc) == now && Fits(now)
  {
  }

  /** What a change notification makes of the store, case by case. */
  lemma OutcomeOfChange(entries: Entries, uri: Bytes, version: int, changes: seq<Change>, enc: Encoding)
    ensures var op := Changed(uri, version, changes); var after := Step(entries, op, enc);
      if Ignores(entries, uri, version) then after == entries
      else
        var was := entries[uri].document;
        var text := Patched(was.text, changes, enc);
        && (PanicsAt(entries, op, enc) <==> Panics(was.text, changes, enc))
        && after == entries[uri := if Panics(was.text, changes, enc) then entries[uri].(document := was.(text := text))
                                   else Entry(was.(text := text, version := version), None)]
  {
    hide Patched, Panics;
  }

  lemma CoherentAfter(entries: Entries, uri: Bytes, version: int, changes: seq<Change>, enc: Encoding)
    ensures var op := Changed(uri, version, changes);
      Coherent(entries) && !PanicsAt(entries, op, enc) ==> Coherent(Step(entries, op, enc))
  {
    var op := Changed(uri, version, changes);
    hide Coherent, Step, PanicsAt;
    if Coherent(entries) {
      StepCoherent(entries, op, enc);
    }
  }

  predicate SizedEntry(entry: Entry) {
    Fits(entry.document.text) && (entry.index.Some? ==> entry.index.value.Proper())
  }

  /** The answer of a query, or the panic a stale index can cause. */
  datatype Answer<T> = NotOpen | Found(value: T) | QueryPanicked

  /** What a query of `entry` through its index, cached or built now, answers. */
  function OffsetThrough(entry: Entry, position: Position, enc: Encoding): Answer<nat> {
    match Warm(entry).index.value.OffsetIn(entry.document.text, position, enc)
    case None => QueryPanicked
    case Some(offset) => Found(offset)
  }

  function PositionThrough(entry: Entry, offset: nat, enc: Encoding): Answer<Position>
    requires SizedEntry(entry)
  {
    WarmIsSized(entry);
    match Warm(entry).index.value.PositionIn(entry.document.text, offset, enc)
    case None => QueryPanicked
    case Some(position) => Found(position)
  }

  lemma WarmIsSized(entry: Entry)
    requires SizedEntry(entry)
    ensures SizedEntry(Warm(entry))
  {
    LineIndex.NewIsProper(entry.document.text);
  }

  /** With an index of its own text, or none, an entry answers as the uncached conversions do. */
  lemma CoherentAnswers(entry: Entry, position: Position, offset: nat, enc: Encoding)
    requires SizedEntry(entry) && CoherentEntry(entry)
    ensures OffsetThrough(entry, position, enc) == Found(PositionToOffset(entry.document.text, position, enc))
    ensures PositionThrough(entry, offset, enc) == Found(OffsetToPosition(entry.document.text, offset, enc))
  {
    LineIndex.OwnOffset(entry.document.text, position, enc);
    LineIndex.OwnPosition(entry.document.text, offset, enc);
    hide PositionToOffset, OffsetToPosition, LineIndex.New;
  }

  class Documents {
    var inner: Entries
    const encoding: Encoding

    constructor (encoding: Encoding)
      ensures inner == map[] && this.encoding == encoding && Sized()
    {
      inner := map[];
      this.encoding := encoding;
    }

    /** Every stored text is small enough for the column arithmetic, and every cached table is a table. */
    ghost predicate Sized()
      reads this
    {
      forall uri :: uri in inner ==> SizedEntry(inner[uri])
    }

    method DidOpen(uri: Bytes, document: Document) returns (previous: Option<Document>)
      requires Sized() && Fits(document.text)
      modifies this
      ensures Sized()
      ensures inner == Step(old(inner), Opened(uri, document), encoding)
      ensures previous == if uri in old(inner) then Some(old(inner)[uri].document) else None
    {
      previous := if uri in inner then Some(inner[uri].document) else None;
      inner := inner[uri := Entry(document, None)];
    }

    /**
      Patches the stored text change by change, in place. When a range is
      inverted the replacement panics there: what was patched stays, the version
      and the cached index are not reached.
     */
    method DidChange(uri: Bytes, version: int, changes: seq<Change>) returns (outcome: ChangeOutcome)
      requires Sized()
      requires !Ignores(inner, uri, version) ==> ChangesFit(inner[uri].document.text, changes, encoding)
      modifies this
      ensures Sized()
      ensures inner == Step(old(inner), Changed(uri, version, changes), encoding)
      ensures outcome ==
        if Ignores(old(inner), uri, version) then Ignored
        else if PanicsAt(old(inner), Changed(uri, version, changes), encoding) then Panicked
        else Applied
      ensures InOrder(changes) ==> outcome != Panicked
      ensures Coherent(old(inner)) && outcome != Panicked ==> Coherent(inner)
    {
      hide Coherent, Step, PanicsAt, Valid;
      CoherentAfter(inner, uri, version, changes, encoding);
      OutcomeOfChange(inner, uri, version, changes, encoding);
      if uri !in inner {
        return Ignored;
      }
      if version < inner[uri].document.version {
        return Ignored;
      }
      ghost var before := inner;
      ghost var was := inner[uri];
      if InOrder(changes) {
        InOrderNeverPanics(was.document.text, changes, encoding);
      }
      ghost var text := was.document.text;
      var k := 0;
      StartPatching(text, changes, encoding);
      hide Patched, Panics, ChangesFit, ApplyChange, PartlyPatched, InOrder;
      while k < |changes|
        invariant k <= |changes| && uri in inner
        invariant inner == before[uri := was.(document := was.document.(text := inner[uri].document.text))]
        invariant PartlyPatched(text, inner[uri].document.text, changes, k, encoding)
      {
        var entry := inner[uri];
        PatchFurther(text, entry.document.text, changes, k, encoding);
        var next := PatchOne(entry.document.text, changes[k]);
        if next.None? {
          return Panicked;
        }
        inner := inner[uri := entry.(document := entry.document.(text := next.value))];
        k := k + 1;
      }
      FinishPatching(text, inner[uri].document.text, changes, encoding);
      inner := inner[uri := Entry(inner[uri].document.(version := version), None)];
      return Applied;
    }

    method PatchOne(text: Bytes, change: Change) returns (next: Option<Bytes>)
      requires Fits(text)
      ensures next == ApplyChange(text, change, encoding)
    {
      match change.range
      case None => next := Some(change.text);
      case Some(range) =>
        var start := TextScan.PositionToOffsetWith(text, range.start, encoding);
        var end := TextScan.PositionToOffsetWith(text, range.end, encoding);
        next := if start <= end then Some(Patch(text, start, end, change.text)) else None;
    }

    method DidClose(uri: Bytes) returns (previous: Option<Document>)
      requires Sized()
      modifies this
      ensures Sized()
      ensures inner == Step(old(inner), Closed(uri), encoding)
      ensures previous == if uri in old(inner) then Some(old(inner)[uri].document) else None
    {
      previous := if uri in inner then Some(inner[uri].document) else None;
      inner := inner - {uri};
    }

    /** The document's text and its line index, built now if no earlier query built it. */
    method WithIndex(key: Bytes) returns (found: Option<(Bytes, LineIndex.LineIndex)>)
      requires Sized()
      modifies this
      ensures Sized() && (Coherent(old(inner)) ==> Coherent(inner))
      ensures inner == Step(old(inner), Looked(key), encoding)
      ensures match Lookup(old(inner), key)
        case None => found == None
        case Some(uri) =>
          found == Some((old(inner)[uri].document.text, Warm(old(inner)[uri]).index.value))
    {
      match Lookup(inner, key)
      case None => return None;
      case Some(uri) =>
        WarmIsSized(inner[uri]);
        var entry := Warm(inner[uri]);
        inner := inner[uri := entry];
        return Some((entry.document.text, entry.index.value));
    }

    /**
      Through the cache. With a coherent entry this is the uncached conversion of
      the current text; with the stale index of a panicked change it is whatever
      the old table says of the new text, or a panic.
     */
    method OffsetAt(key: Bytes, position: Position) returns (answer: Answer<nat>)
      requires Sized()
      modifies this
      ensures Sized() && (Coherent(old(inner)) ==> Coherent(inner))
      ensures inner == Step(old(inner), Looked(key), encoding)
      ensures match Lookup(old(inner), key)
        case None => answer == NotOpen
        case Some(uri) =>
          var entry := old(inner)[uri];
          && answer == OffsetThrough(entry, position, encoding)
          && (CoherentEntry(entry) ==> answer == Found(PositionToOffset(entry.document.text, position, encoding)))
    {
      ghost var hit := Lookup(inner, key);
      if hit.Some? && CoherentEntry(inner[hit.value]) {
        CoherentAnswers(inner[hit.value], position, 0, encoding);
      }
      var found := WithIndex(key);
      if found.None? {
        return NotOpen;
      }
      var (text, index) := found.value;
      match index.OffsetIn(text, position, encoding)
      case None => return QueryPanicked;
      case Some(offset) => return Found(offset);
    }

    method PositionAt(key: Bytes, offset: nat) returns (answer: Answer<Position>)
      requires Sized()
      modifies this
      ensures Sized() && (Coherent(old(inner)) ==> Coherent(inner))
      ensures inner == Step(old(inner), Looked(key), encoding)
      ensures match Lookup(old(inner), key)
        case None => answer == NotOpen
        case Some(uri) =>
          var entry := old(inner)[uri];
          && SizedEntry(entry)
          && answer == PositionThrough(entry, offset, encoding)
          && (CoherentEntry(entry) ==> answer == Found(OffsetToPosition(entry.document.text, offset, encoding)))
    {
      ghost var hit := Lookup(inner, key);
      if hit.Some? {
        WarmIsSized(inner[hit.value]);
        if CoherentEntry(inner[hit.value]) {
          CoherentAnswers(inner[hit.value], Position(0, 0), offset, encoding);
        }
      }
      var found := WithIndex(key);
      if found.None? {
        return NotOpen;
      }
      var (text, index) := found.value;
      match index.PositionIn(text, offset, encoding)
      case None => return QueryPanicked;
      case Some(position) => return Found(position);
    }
  }
}
