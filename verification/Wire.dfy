/**
  Messages over the wire: the writer's batches of framed bodies
  (src/server.rs:258-291) read back through the message loop's reader
  (src/server.rs:384-428), with JSON text abstracted to a printer and a parser.
 */
module Wire {
  import opened Strings
  import opened Wrappers
  import opened Frames
  import opened Transport
  import opened JsonRpc

  /** Bytes to message: parse the text, then classify the value. */
  function Decoder(parse: Bytes -> Option<Json>): Bytes -> Option<Message> {
    body => match parse(body)
      case None => None
      case Some(j) => FromJson(j)
  }

  function Encode(print_: Json -> Bytes, m: Message): Bytes {
    print_(ToJson(m))
  }

  function EncodeAll(print_: Json -> Bytes, messages: seq<Message>): (bodies: seq<Bytes>)
    ensures |bodies| == |messages|
    ensures forall i :: 0 <= i < |messages| ==> bodies[i] == Encode(print_, messages[i])
  {
    if messages == [] then [] else [Encode(print_, messages[0])] + EncodeAll(print_, messages[1..])
  }

  function Delivered(messages: seq<Message>): seq<Inbound<Message>> {
    if messages == [] then [] else [Parsed(Canonical(messages[0]))] + Delivered(messages[1..])
  }

  /**
    What the printer and the parser of JSON text are assumed to do for the
    messages written: parsing inverts printing, and no text is no value.
   */
  ghost predicate Inverts(print_: Json -> Bytes, parse: Bytes -> Option<Json>, messages: seq<Message>) {
    && parse([]) == None
    && forall i :: 0 <= i < |messages| ==> parse(print_(ToJson(messages[i]))) == Some(ToJson(messages[i]))
  }

  predicate Fits(print_: Json -> Bytes, m: Message) {
    |Encode(print_, m)| <= MAX_CONTENT_LENGTH
  }

  lemma OneMessage(print_: Json -> Bytes, parse: Bytes -> Option<Json>, m: Message)
    requires Inverts(print_, parse, [m])
    ensures Decoder(parse)(Encode(print_, m)) == Some(Canonical(m)) && Encode(print_, m) != []
  {
    RoundTrip(m);
    hide FromJson, ToJson, Canonical;
    assert [m][0] == m;
  }

  lemma {:induction false} AllMessages(print_: Json -> Bytes, parse: Bytes -> Option<Json>, messages: seq<Message>)
    requires Inverts(print_, parse, messages)
    ensures ClassifyAll(Decoder(parse), EncodeAll(print_, messages)) == Delivered(messages)
    decreases |messages|
  {
    if messages != [] {
      hide ToJson;
      assert Inverts(print_, parse, [messages[0]]);
      OneMessage(print_, parse, messages[0]);
      assert forall i :: 0 <= i < |messages[1..]| ==> messages[1..][i] == messages[i + 1];
      AllMessages(print_, parse, messages[1..]);
      hide Decoder, Encode, Canonical;
      assert EncodeAll(print_, messages)[1..] == EncodeAll(print_, messages[1..]);
    }
  }

  function Flatten(batches: seq<seq<Message>>): seq<Message> {
    if batches == [] then [] else batches[0] + Flatten(batches[1..])
  }

  function EncodeBatches(print_: Json -> Bytes, batches: seq<seq<Message>>): seq<seq<Bytes>> {
    if batches == [] then [] else [EncodeAll(print_, batches[0])] + EncodeBatches(print_, batches[1..])
  }

  lemma {:induction false} EncodeConcat(print_: Json -> Bytes, a: seq<Message>, b: seq<Message>)
    ensures EncodeAll(print_, a + b) == EncodeAll(print_, a) + EncodeAll(print_, b)
  {
    assert forall i :: 0 <= i < |a| ==> (a + b)[i] == a[i];
    assert forall i :: 0 <= i < |b| ==> (a + b)[|a| + i] == b[i];
  }

  lemma {:induction false} BodiesOfBatches(print_: Json -> Bytes, batches: seq<seq<Message>>)
    ensures Transport.Messages(EncodeBatches(print_, batches)) == EncodeAll(print_, Flatten(batches))
    decreases |batches|
  {
    if batches != [] {
      BodiesOfBatches(print_, batches[1..]);
      EncodeConcat(print_, batches[0], Flatten(batches[1..]));
      hide EncodeAll;
      assert EncodeBatches(print_, batches)[1..] == EncodeBatches(print_, batches[1..]);
    }
  }

  /**
    The wire round trip: however the writer groups messages into batches, the
    bytes it writes are read back as exactly those messages in order, in
    canonical form, and then as a clean end.
   */
  lemma WireRoundTrip(print_: Json -> Bytes, parse: Bytes -> Option<Json>, batches: seq<seq<Message>>)
    requires Inverts(print_, parse, Flatten(batches))
    requires forall i :: 0 <= i < |Flatten(batches)| ==> Fits(print_, Flatten(batches)[i])
    ensures Incoming(Decoder(parse), Written(EncodeBatches(print_, batches)))
      == (Delivered(Flatten(batches)), CleanEnd)
  {
    var bodies := EncodeAll(print_, Flatten(batches));
    BatchingIsInvisible(EncodeBatches(print_, batches));
    BodiesOfBatches(print_, batches);
    AllMessages(print_, parse, Flatten(batches));
    hide FramesOf, Incoming, ClassifyAll, Delivered, Flatten, Written;
    AllFit(print_, Flatten(batches));
    StreamRoundTrip(Decoder(parse), bodies);
  }

  /** Messages as they wait in the writer's queue: each with the body it serializes to. */
  function Queued(print_: Json -> Bytes, messages: seq<Message>): (queue: seq<Option<Bytes>>)
    ensures |queue| == |messages|
    ensures forall i :: 0 <= i < |messages| ==> queue[i] == Some(Encode(print_, messages[i]))
  {
    if messages == [] then [] else [Some(Encode(print_, messages[0]))] + Queued(print_, messages[1..])
  }

  /**
    What the writer leaves on a fresh stream after turns that all write
    (`Transport.Writer.Serve`), the frames of everything it took, is read back as
    those messages.
   */
  lemma WriterIsRead(print_: Json -> Bytes, parse: Bytes -> Option<Json>, messages: seq<Message>)
    requires Inverts(print_, parse, messages)
    requires forall i :: 0 <= i < |messages| ==> Fits(print_, messages[i])
    ensures AllEncode(Queued(print_, messages))
    ensures Incoming(Decoder(parse), FramesOf(Bodies(Queued(print_, messages)))) == (Delivered(messages), CleanEnd)
  {
    BodiesOfQueued(print_, messages);
    AllMessages(print_, parse, messages);
    AllFit(print_, messages);
    hide *;
    StreamRoundTrip(Decoder(parse), EncodeAll(print_, messages));
  }

  lemma BodiesOfQueued(print_: Json -> Bytes, messages: seq<Message>)
    ensures AllEncode(Queued(print_, messages)) && Bodies(Queued(print_, messages)) == EncodeAll(print_, messages)
  {
    hide Encode;
  }

  /** A stream cut inside its last frame delivers the messages before it, never a part of it, and breaks. */
  lemma CutWireBreaks(
    print_: Json -> Bytes, parse: Bytes -> Option<Json>, messages: seq<Message>, last: Message, k: nat)
    requires Inverts(print_, parse, messages) && Inverts(print_, parse, [last]) && Fits(print_, last)
    requires forall i :: 0 <= i < |messages| ==> Fits(print_, messages[i])
    requires 0 < k < |Frame(Encode(print_, last))|
    ensures var (got, ending) := Incoming(Decoder(parse),
        FramesOf(EncodeAll(print_, messages)) + Frame(Encode(print_, last))[..k]);
      got == Delivered(messages) && ending.Broken?
  {
    var bodies := EncodeAll(print_, messages);
    OneMessage(print_, parse, last);
    AllMessages(print_, parse, messages);
    hide FramesOf, Frame, Incoming, ClassifyAll, Delivered;
    AllFit(print_, messages);
    CutStreamBreaks(Decoder(parse), bodies, Encode(print_, last), k);
  }

  /** A body that is no message, in an intact frame between two streams, hides nothing behind it. */
  lemma BadBodyHidesNothing(print_: Json -> Bytes, parse: Bytes -> Option<Json>,
      before: seq<Message>, bad: Bytes, after: seq<Message>)
    requires Inverts(print_, parse, before) && Inverts(print_, parse, after)
    requires Decoder(parse)(bad) == None && |bad| <= MAX_CONTENT_LENGTH
    requires forall i :: 0 <= i < |before| ==> Fits(print_, before[i])
    requires forall i :: 0 <= i < |after| ==> Fits(print_, after[i])
    ensures Incoming(Decoder(parse),
        FramesOf(EncodeAll(print_, before) + [bad] + EncodeAll(print_, after)))
      == (Delivered(before) + [Unparsable] + Delivered(after), CleanEnd)
  {
    var one, two := EncodeAll(print_, before), EncodeAll(print_, after);
    AllMessages(print_, parse, before);
    AllMessages(print_, parse, after);
    AllFit(print_, before);
    AllFit(print_, after);
    hide FramesOf, Incoming, Delivered, Decoder, EncodeAll;
    StreamRoundTrip(Decoder(parse), one + [bad] + two);
    ClassifySplit(Decoder(parse), one, bad, two);
  }

  lemma AllFit(print_: Json -> Bytes, messages: seq<Message>)
    requires forall i :: 0 <= i < |messages| ==> Fits(print_, messages[i])
    ensures WithinLimit(EncodeAll(print_, messages))
  {
    var bodies := EncodeAll(print_, messages);
    assert forall i :: 0 <= i < |bodies| ==> Fits(print_, messages[i]);
  }

  lemma ClassifySplit<M>(parse: Bytes -> Option<M>, one: seq<Bytes>, bad: Bytes, two: seq<Bytes>)
    requires parse(bad) == None
    ensures ClassifyAll(parse, one + [bad] + two)
      == ClassifyAll(parse, one) + [Unparsable] + ClassifyAll(parse, two)
  {
    var bodies := one + [bad] + two;
    assert Classify(parse, bad) == Unparsable;
    forall i | 0 <= i < |bodies|
      ensures ClassifyAll(parse, bodies)[i] == (ClassifyAll(parse, one) + [Unparsable] + ClassifyAll(parse, two))[i]
    {
      if i > |one| {
        assert bodies[i] == two[i - |one| - 1];
      }
    }
  }

  // ----- the assumption can be met

  function Ones(n: nat): (s: Bytes)
    ensures |s| == n
  {
    if n == 0 then [] else Ones(n - 1) + [0x31]
  }

  /** One past the place of `j` among `values`, or 0. */
  ghost function Place(values: seq<Json>, j: Json): (n: nat)
    ensures n <= |values| && (n > 0 ==> values[n - 1] == j) && (j in values ==> n > 0)
  {
    if values == [] then 0
    else
      assert values == values[..|values| - 1] + [values[|values| - 1]];
      if values[|values| - 1] == j then |values| else Place(values[..|values| - 1], j)
  }

  function Values(messages: seq<Message>): (values: seq<Json>)
    ensures |values| == |messages| && forall i :: 0 <= i < |messages| ==> values[i] == ToJson(messages[i])
  {
    if messages == [] then [] else [ToJson(messages[0])] + Values(messages[1..])
  }

  /** For any messages there are a printer and a parser as the results above assume them. */
  lemma SomePrinterInverts(messages: seq<Message>) returns (print_: Json -> Bytes, parse: Bytes -> Option<Json>)
    requires |messages| <= MAX_CONTENT_LENGTH
    ensures Inverts(print_, parse, messages)
    ensures forall i :: 0 <= i < |messages| ==> Fits(print_, messages[i])
  {
    hide ToJson;
    var values := Values(messages);
    print_ := j => Ones(Place(values, j));
    parse := (b: Bytes) => if 1 <= |b| <= |values| then Some(values[|b| - 1]) else None;
    forall i | 0 <= i < |messages|
      ensures parse(print_(ToJson(messages[i]))) == Some(ToJson(messages[i])) && Fits(print_, messages[i])
    {
      assert values[i] in values;
    }
  }
}
