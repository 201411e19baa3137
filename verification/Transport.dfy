/**
  Reading and writing frames (src/transport.rs) and the batching writer
  (src/server.rs): the loops over the stream and the buffer, and what a whole
  stream of frames delivers.
 */
module Transport {
  import opened Strings
  import opened Ascii
  import opened Wrappers
  import opened Frames

  // ----- whole streams

  /** What the message loop sees of one intact frame: a message, or a body it could not parse. */
  datatype Inbound<+M> = Parsed(message: M) | Unparsable

  datatype Ending = CleanEnd | Broken(error: FrameError)

  function Classify<M>(parse: Bytes -> Option<M>, body: Bytes): Inbound<M> {
    match parse(body)
    case None => Unparsable
    case Some(message) => Parsed(message)
  }

  function ClassifyAll<M>(parse: Bytes -> Option<M>, bodies: seq<Bytes>): (r: seq<Inbound<M>>)
    ensures |r| == |bodies| && forall i :: 0 <= i < |bodies| ==> r[i] == Classify(parse, bodies[i])
  {
    if bodies == [] then [] else [Classify(parse, bodies[0])] + ClassifyAll(parse, bodies[1..])
  }

  /** Read until the stream ends or its framing breaks; an unparsable body ends nothing. */
  function Incoming<M>(parse: Bytes -> Option<M>, s: Bytes): (seq<Inbound<M>>, Ending)
    decreases |s|
  {
    match ReadFrame(s)
    case (End, _) => ([], CleanEnd)
    case (Failure(e), _) => ([], Broken(e))
    case (Body(body), rest) =>
      var (later, ending) := Incoming(parse, rest);
      ([Classify(parse, body)] + later, ending)
  }

  predicate WithinLimit(bodies: seq<Bytes>) {
    forall i :: 0 <= i < |bodies| ==> |bodies[i]| <= MAX_CONTENT_LENGTH
  }

  /**
    The frames of any bodies, followed by anything, deliver those bodies one by
    one in order and then whatever the rest delivers. In particular a body that
    does not parse leaves every later frame readable.
   */
  lemma {:induction false} FramesDeliver<M>(parse: Bytes -> Option<M>, bodies: seq<Bytes>, tail: Bytes)
    requires WithinLimit(bodies)
    ensures var (later, ending) := Incoming(parse, tail);
      Incoming(parse, FramesOf(bodies) + tail)
      == (ClassifyAll(parse, bodies) + later, ending)
    decreases |bodies|
  {
    hide ReadFrame, Frame;
    if bodies == [] {
      assert FramesOf(bodies) + tail == tail;
      NothingBefore(ClassifyAll(parse, bodies), Incoming(parse, tail).0);
    } else {
      var rest := FramesOf(bodies[1..]) + tail;
      assert FramesOf(bodies) + tail == Frame(bodies[0]) + rest;
      FrameRoundTrip(bodies[0], rest);
      FramesDeliver(parse, bodies[1..], tail);
      OneMore(Classify(parse, bodies[0]), ClassifyAll(parse, bodies[1..]), Incoming(parse, tail).0);
    }
  }

  lemma NothingBefore<T>(a: seq<T>, b: seq<T>)
    requires a == []
    ensures a + b == b && b + a == b
  {
  }

  lemma OneMore<T>(x: T, a: seq<T>, b: seq<T>)
    ensures [x] + (a + b) == [x] + a + b
  {
  }

  /** And when nothing follows, a clean end. */
  lemma StreamRoundTrip<M>(parse: Bytes -> Option<M>, bodies: seq<Bytes>)
    requires WithinLimit(bodies)
    ensures Incoming(parse, FramesOf(bodies))
      == (ClassifyAll(parse, bodies), CleanEnd)
  {
    hide FramesOf, ReadFrame, ClassifyAll;
    FramesDeliver(parse, bodies, []);
    NothingBefore([], FramesOf(bodies));
    NothingArrives(parse);
    NothingBefore([], ClassifyAll(parse, bodies));
  }

  lemma NothingArrives<M>(parse: Bytes -> Option<M>)
    ensures Incoming(parse, []) == ([], CleanEnd)
  {
    assert ReadFrame([]).0 == End;
  }

  /** A stream cut inside a frame with a non-empty body delivers the earlier frames and then breaks. */
  lemma CutStreamBreaks<M>(parse: Bytes -> Option<M>, bodies: seq<Bytes>, last: Bytes, k: nat)
    requires WithinLimit(bodies) && 0 < |last| <= MAX_CONTENT_LENGTH && 0 < k < |Frame(last)|
    ensures var (got, ending) := Incoming(parse, FramesOf(bodies) + Frame(last)[..k]);
      && ending.Broken?
      && got == ClassifyAll(parse, bodies)
  {
    CutFrameFails(last, k);
    FramesDeliver(parse, bodies, Frame(last)[..k]);
    hide ReadFrame, Frame, FramesOf;
  }

  // ----- batches

  lemma {:induction false} FramesConcat(a: seq<Bytes>, b: seq<Bytes>)
    ensures FramesOf(a + b) == FramesOf(a) + FramesOf(b)
    decreases |a|
  {
    hide Frame;
    if a == [] {
      assert a + b == b;
    } else {
      FramesConcat(a[1..], b);
      assert (a + b)[1..] == a[1..] + b;
    }
  }

  /** The messages and the bytes of a run of batches. */
  function Messages(batches: seq<seq<Bytes>>): seq<Bytes> {
    if batches == [] then [] else batches[0] + Messages(batches[1..])
  }

  function Written(batches: seq<seq<Bytes>>): Bytes {
    if batches == [] then [] else FramesOf(batches[0]) + Written(batches[1..])
  }

  /** However messages are grouped into writes, the bytes on the wire are the same. */
  lemma {:induction false} BatchingIsInvisible(batches: seq<seq<Bytes>>)
    ensures Written(batches) == FramesOf(Messages(batches))
    decreases |batches|
  {
    hide FramesOf;
    if batches != [] {
      BatchingIsInvisible(batches[1..]);
      FramesConcat(batches[0], Messages(batches[1..]));
    } else {
      FramesOfNothing();
    }
  }

  lemma FramesOfNothing()
    ensures FramesOf([]) == []
  {
  }

  /** Append one frame to a buffer. */
  method EncodeMessage(buffer: Bytes, body: Bytes) returns (r: Bytes)
    ensures r == buffer + Frame(body)
  {
    r := buffer + (PREFIX + Decimal(|body|) + CRLF + CRLF);
    r := r + body;
    assert FirstLine(|body|) + CRLF == PREFIX + Decimal(|body|) + CRLF + CRLF;
    hide Decimal, FirstLine;
    assert buffer + (FirstLine(|body|) + CRLF) + body == buffer + (FirstLine(|body|) + CRLF + body);
  }

  // ----- the writer

  /** What becomes of one write and flush; a failing write may have passed on a part first. */
  datatype Io = Wrote | WriteFails(passed: nat) | FlushFails

  /** The bodies of queued messages; `None` stands for one that cannot be serialized. */
  predicate AllEncode(taken: seq<Option<Bytes>>) {
    forall i :: 0 <= i < |taken| ==> taken[i].Some?
  }

  function Bodies(taken: seq<Option<Bytes>>): seq<Bytes>
    requires AllEncode(taken)
  {
    seq(|taken|, i requires 0 <= i < |taken| => taken[i].value)
  }

  /** What a turn of the writer adds to the stream. */
  function Passed(taken: seq<Option<Bytes>>, io: Io): Bytes {
    if !AllEncode(taken) then []
    else
      var batch := FramesOf(Bodies(taken));
      if io.WriteFails? && io.passed < |batch| then batch[..io.passed] else batch
  }

  /** The writer task: its queue, the shared depth counter, the bytes on the stream, and whether it has failed. */
  class Writer {
    var queue: seq<Option<Bytes>>
    var depth: nat
    var output: Bytes
    var dead: bool

    constructor ()
      ensures queue == [] && depth == 0 && output == [] && !dead
    {
      queue, depth, output, dead := [], 0, [], false;
    }

    /**
      One turn of the loop: take the first message and as many more as are there
      (`found`, whatever the channel yields), as one write. The counter drops
      once per message even when one of them cannot be serialized; then, or when
      the write or flush fails, the writer is dead.
     */
    method WriteBatch(found: nat, io: Io)
      requires !dead && 1 <= found <= |queue| <= depth
      modifies this
      ensures queue == old(queue)[found..] && depth == old(depth) - found
      ensures output == old(output) + Passed(old(queue)[..found], io)
      ensures dead <==> !(AllEncode(old(queue)[..found]) && io.Wrote?)
    {
      ghost var was := queue;
      hide Frame, FramesOf;
      FramesOfNothing();
      assert Bodies(was[..0]) == [];
      var batch: Bytes := [];
      var encodes := true;
      var taken := 0;
      while taken < found
        invariant taken <= found && queue == was[taken..] && depth == old(depth) - taken
        invariant encodes <==> AllEncode(was[..taken])
        invariant encodes ==> batch == FramesOf(Bodies(was[..taken]))
        invariant output == old(output) && dead == old(dead)
      {
        var message := queue[0];
        queue := queue[1..];
        depth := depth - 1;
        TakesOneMore(was, taken);
        if encodes && message.Some? {
          batch := EncodeMessage(batch, message.value);
        } else {
          encodes := false;
        }
        taken := taken + 1;
      }
      if !encodes {
        dead := true;
      } else if io.WriteFails? && io.passed < |batch| {
        output := output + batch[..io.passed];
        dead := true;
      } else {
        output := output + batch;
        dead := !io.Wrote?;
      }
    }

    /**
      The writer's loop over a number of turns, up to the first that fails: the
      stream gets the frames of every message of the turns that are done, and of
      a failing turn what it passed on. Every message taken is uncounted.
     */
    method Serve(turns: seq<Turn>) returns (done: nat)
      requires !dead && Upto(turns, |turns|) <= |queue| <= depth
      modifies this
      ensures done <= |turns| && (dead <==> done < |turns|)
      ensures Upto(turns, if dead then done + 1 else done) <= |old(queue)| && AllEncode(old(queue)[..Upto(turns, done)])
      ensures var taken := Upto(turns, if dead then done + 1 else done);
        queue == old(queue)[taken..] && depth == old(depth) - taken
      ensures output == old(output) + FramesOf(Bodies(old(queue)[..Upto(turns, done)])) +
        if dead then Passed(Batch(old(queue), turns, done), turns[done].io) else []
      ensures dead ==> !(AllEncode(Batch(old(queue), turns, done)) && turns[done].io.Wrote?)
    {
      ghost var was := queue;
      hide FramesOf, Passed, AllEncode, Bodies;
      NothingTaken(turns, was);
      done := 0;
      while done < |turns|
        invariant done <= |turns| && !dead && Upto(turns, done) <= |was| && AllEncode(was[..Upto(turns, done)])
        invariant queue == was[Upto(turns, done)..] && depth == old(depth) - Upto(turns, done)
        invariant output == old(output) + FramesOf(Bodies(was[..Upto(turns, done)]))
      {
        OneTurn(turns, done, was);
        WriteBatch(turns[done].found, turns[done].io);
        if dead {
          return;
        }
        WrittenTurn(turns, done, was);
        done := done + 1;
      }
    }
  }

  type pos = x: nat | x > 0 witness 1

  /** What one turn of the writer finds in the queue, and what becomes of its write. */
  datatype Turn = Turn(found: pos, io: Io)

  /** How many messages the first `k` turns take. */
  function Upto(turns: seq<Turn>, k: nat): nat
    requires k <= |turns|
  {
    if k == 0 then 0 else Upto(turns, k - 1) + turns[k - 1].found
  }

  lemma {:induction false} UptoGrows(turns: seq<Turn>, k: nat)
    requires k <= |turns|
    ensures Upto(turns, k) <= Upto(turns, |turns|)
    decreases |turns| - k
  {
    if k < |turns| {
      UptoGrows(turns, k + 1);
    }
  }

  /** The messages turn `k` takes. */
  function Batch(queue: seq<Option<Bytes>>, turns: seq<Turn>, k: nat): seq<Option<Bytes>>
    requires k < |turns| && Upto(turns, k + 1) <= |queue|
  {
    queue[Upto(turns, k)..Upto(turns, k + 1)]
  }

  lemma NothingTaken(turns: seq<Turn>, queue: seq<Option<Bytes>>)
    ensures Upto(turns, 0) == 0 && AllEncode(queue[..0]) && FramesOf(Bodies(queue[..0])) == []
  {
  }

  /** The next turn takes the next part of the queue. */
  lemma OneTurn(turns: seq<Turn>, k: nat, queue: seq<Option<Bytes>>)
    requires k < |turns| && Upto(turns, |turns|) <= |queue|
    ensures Upto(turns, k + 1) == Upto(turns, k) + turns[k].found <= |queue|
    ensures queue[Upto(turns, k)..][..turns[k].found] == Batch(queue, turns, k)
    ensures queue[Upto(turns, k)..][turns[k].found..] == queue[Upto(turns, k + 1)..]
  {
    UptoGrows(turns, k + 1);
    Sliced(queue, Upto(turns, k), Upto(turns, k + 1));
  }

  lemma WrittenTurn(turns: seq<Turn>, k: nat, queue: seq<Option<Bytes>>)
    requires k < |turns| && Upto(turns, k + 1) <= |queue|
    requires AllEncode(queue[..Upto(turns, k)]) && AllEncode(Batch(queue, turns, k)) && turns[k].io.Wrote?
    ensures AllEncode(queue[..Upto(turns, k + 1)])
    ensures FramesOf(Bodies(queue[..Upto(turns, k)])) + Passed(Batch(queue, turns, k), turns[k].io)
      == FramesOf(Bodies(queue[..Upto(turns, k + 1)]))
  {
    var before, batch := queue[..Upto(turns, k)], Batch(queue, turns, k);
    Sliced(queue, Upto(turns, k), Upto(turns, k + 1));
    TurnPassesOn(batch, turns[k].io);
    BodiesConcat(before, batch);
    hide *;
    FramesConcat(Bodies(before), Bodies(batch));
  }

  lemma Sliced<T>(s: seq<T>, i: nat, j: nat)
    requires i <= j <= |s|
    ensures s[i..][..j - i] == s[i..j] && s[i..][j - i..] == s[j..] && s[..i] + s[i..j] == s[..j]
  {
  }

  lemma BodiesConcat(a: seq<Option<Bytes>>, b: seq<Option<Bytes>>)
    requires AllEncode(a) && AllEncode(b)
    ensures AllEncode(a + b) && Bodies(a + b) == Bodies(a) + Bodies(b)
  {
  }

  lemma TakesOneMore(queue: seq<Option<Bytes>>, taken: nat)
    requires taken < |queue|
    ensures AllEncode(queue[..taken + 1]) <==> AllEncode(queue[..taken]) && queue[taken].Some?
    ensures AllEncode(queue[..taken + 1]) ==>
      FramesOf(Bodies(queue[..taken + 1])) == FramesOf(Bodies(queue[..taken])) + Frame(queue[taken].value)
  {
    hide Frame, FramesOf;
    assert queue[..taken + 1] == queue[..taken] + [queue[taken]];
    if AllEncode(queue[..taken + 1]) {
      assert AllEncode(queue[..taken]) && queue[taken] == queue[..taken + 1][taken];
      assert Bodies(queue[..taken + 1]) == Bodies(queue[..taken]) + [queue[taken].value];
      FramesConcat(Bodies(queue[..taken]), [queue[taken].value]);
      OneFrame(queue[taken].value);
    }
  }

  /**
    What a turn passes on: nothing of a batch that does not serialize; otherwise the
    frames of all its messages, unless the write fails, and then the part of them
    that had been passed on.
   */
  lemma TurnPassesOn(taken: seq<Option<Bytes>>, io: Io)
    ensures !AllEncode(taken) ==> Passed(taken, io) == []
    ensures AllEncode(taken) ==>
      var frames := FramesOf(Bodies(taken));
      && (io.Wrote? || io.FlushFails? ==> Passed(taken, io) == frames)
      && (io.WriteFails? ==> Passed(taken, io) == frames[..if io.passed < |frames| then io.passed else |frames|])
  {
    hide FramesOf, Bodies;
  }

  /**
    So after any batches a written turn leaves the frames of all the messages taken,
    and a failing one a beginning of them, in which a reader still gets every whole frame.
   */
  lemma FailureLeavesPrefix(batches: seq<seq<Bytes>>, taken: seq<Option<Bytes>>, io: Io)
    requires AllEncode(taken)
    ensures Written(batches) + Passed(taken, io) <= FramesOf(Messages(batches) + Bodies(taken))
    ensures !io.WriteFails? ==> Written(batches) + Passed(taken, io) == FramesOf(Messages(batches) + Bodies(taken))
    ensures io.WriteFails? && Written(batches) + Passed(taken, io) != FramesOf(Messages(batches) + Bodies(taken)) ==>
      |Written(batches) + Passed(taken, io)| == |FramesOf(Messages(batches))| + io.passed
  {
    hide FramesOf, Bodies;
    BatchingIsInvisible(batches);
    FramesConcat(Messages(batches), Bodies(taken));
    assert Passed(taken, io) <= FramesOf(Bodies(taken));
  }

  lemma OneFrame(body: Bytes)
    ensures FramesOf([body]) == Frame(body)
  {
    hide Frame;
    assert [body][1..] == [];
  }

  // ----- the reader

  /** A buffered byte stream, as the bytes not read yet. */
  class Reader {
    var rest: Bytes

    constructor (bytes: Bytes)
      ensures rest == bytes
    {
      rest := bytes;
    }

    /** Empty at the end of the stream. */
    method ReadLine() returns (line: Bytes)
      modifies this
      ensures if old(rest) == [] then line == [] && rest == []
              else line == old(rest)[..LineLength(old(rest))] && rest == old(rest)[LineLength(old(rest))..]
    {
      if rest == [] {
        return [];
      }
      var n := LineLength(rest);
      line := rest[..n];
      rest := rest[n..];
    }

    method ReadHeaderBlock() returns (headers: Headers)
      modifies this
      ensures (headers, rest) == ReadHeaders(old(rest), None, false)
    {
      hide HeaderLine, TrimLineEnd, Valid, LineLength;
      var contentLength: Option<nat> := None;
      var sawAnyByte := false;
      while true
        invariant ReadHeaders(rest, contentLength, sawAnyByte) == ReadHeaders(old(rest), None, false)
        decreases |rest|
      {
        var line := ReadLine();
        if line == [] {
          return if sawAnyByte then BadHeaders(ClosedInHeaders) else NoMore;
        }
        if !Valid(line) {
          return BadHeaders(NotUtf8);
        }
        sawAnyByte := true;
        var trimmed := TrimLineEnd(line);
        if trimmed == [] {
          break;
        }
        match HeaderLine(trimmed, contentLength) {
          case Err(e) => return BadHeaders(e);
          case Ok(next) => contentLength := next;
        }
      }
      headers := Finish(contentLength);
    }

    method ReadMessage() returns (read: Read)
      modifies this
      ensures (read, rest) == ReadFrame(old(rest))
    {
      var headers := ReadHeaderBlock();
      match headers
      case NoMore => read := End;
      case BadHeaders(e) => read := Failure(e);
      case Length(n) =>
        if |rest| < n {
          rest := [];
          read := Failure(ClosedMidMessage);
        } else {
          read := Body(rest[..n]);
          rest := rest[n..];
        }
    }
  }
}
