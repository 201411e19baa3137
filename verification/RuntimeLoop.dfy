/**
  The bodies of the loop's and the worker's critical sections as the source
  writes them (src/server.rs:347-381, 547-551, 598-704, 741-759): each updates the
  shared fields in place, and is one uninterrupted run of the step system.
 */
module RuntimeLoop {
  import opened Wrappers
  import opened Runtime
  import M = RuntimeMutex
  import N = RuntimeNotes
  import O = RuntimeOwnAnswers
  import P = RuntimeProgress
  import D = Documents
  import Text

  class Server {
    const cap: Option<nat>
    const enc: Text.Encoding
    var loop: Loop
    var initialized: bool
    var shutdownRequested: bool
    var notes: Notes
    var requests: seq<Request>
    var inFlight: map<Id, nat>
    var mutex: Mutex
    var free: nat
    var answers: seq<Answer>
    var drained: seq<Entry>
    var strays: nat

    constructor (cap: Option<nat>, enc: Text.Encoding)
      ensures Init(Snapshot()) && this.cap == cap && this.enc == enc
    {
      this.cap, this.enc := cap, enc;
      loop, initialized, shutdownRequested := Reading, false, false;
      notes := Notes([], [], Idle, false, [], map[], 0);
      requests, inFlight, mutex, free := [], map[], Free, if cap.Some? then cap.value else 0;
      answers, drained, strays := [], [], 0;
    }

    ghost function Snapshot(): State
      reads this
    {
      State(cap, enc, loop, initialized, shutdownRequested, notes, requests, inFlight, mutex, free, answers, drained, strays)
    }

    /** Every entry of the map belongs to a request that carries its id. */
    ghost predicate Valid()
      reads this
    {
      forall id :: id in inFlight ==> inFlight[id] < |requests| && requests[inFlight[id]].id == id
    }

    /** A feature request just received: check, spawn and insert under one hold of the mutex. */
    method SpawnRequest(id: Id, work: nat) returns (spawned: bool)
      requires Valid() && loop.Reading? && mutex.Free? && initialized && !shutdownRequested
      modifies this`requests, this`inFlight, this`answers, this`mutex
      ensures Valid() && mutex.Free? && spawned == (id !in old(inFlight))
      ensures var q := Request(id, Feature, |notes.log|, true, false, work, Unspawned, false, false, false);
        if spawned then
          && requests == old(requests) + [q.(pc := Waiting)] && answers == old(answers)
          && inFlight == old(inFlight)[id := |old(requests)|]
        else
          && requests == old(requests) + [q] && inFlight == old(inFlight)
          && answers == old(answers) + [Answer(id, |old(requests)|, RefusedDuplicate)]
      ensures Run(old(Snapshot()), if spawned then O.SpawnSteps(id, work) else RefusalSteps(id, work), Snapshot())
    {
      hide Run, O.SpawnSteps, RefusalSteps;
      var r := |requests|;
      requests := requests + [Request(id, Feature, |notes.log|, initialized, shutdownRequested, work, Unspawned, false, false, false)];
      mutex := LoopHas;
      if id in inFlight {
        mutex := Free;
        answers := answers + [Answer(id, r, RefusedDuplicate)];
        RefusedRun(old(Snapshot()), id, work);
        return false;
      }
      requests := requests[r := requests[r].(pc := Waiting)];
      inFlight := inFlight[id := r];
      mutex := Free;
      O.SpawnRun(old(Snapshot()), id, work);
      return true;
    }

    /** A cancellation just received: remove, trip, abort and answer under one hold of the mutex. */
    method CancelRequest(id: Id) returns (found: bool)
      requires Valid() && loop.Reading? && mutex.Free?
      modifies this`requests, this`inFlight, this`answers, this`mutex
      ensures Valid() && mutex.Free? && found == (id in old(inFlight))
      ensures found ==> Snapshot() == O.AfterCancel(old(Snapshot()), old(inFlight)[id])
      ensures found ==> Run(old(Snapshot()), O.CancelSteps(id), Snapshot())
      ensures !found ==> Snapshot() == old(Snapshot()) && Run(old(Snapshot()), MissSteps(id), Snapshot())
    {
      hide Run, O.CancelSteps, MissSteps;
      mutex := LoopHas;
      found := id in inFlight;
      if found {
        var r := inFlight[id];
        inFlight := inFlight - {id};
        requests := requests[r := requests[r].(tripped := true)];
        requests := requests[r := requests[r].(aborted := true)];
        answers := answers + [Answer(id, r, Cancelled)];
        assert requests == old(requests)[r := old(requests)[r].(tripped := true, aborted := true)];
        O.CancelRun(old(Snapshot()), r);
      } else {
        MissRun(old(Snapshot()), id);
      }
      mutex := Free;
    }

    /** The teardown's drain: every entry is taken out, its token tripped and its task aborted. */
    method DrainInFlight() returns (ghost steps: seq<Action>)
      requires Valid() && loop.TearWait? && mutex.Free?
      modifies this`loop, this`requests, this`inFlight, this`drained, this`mutex
      ensures mutex.Free? && loop == Grace(old(loop).cause)
      ensures FullyDrained(old(Snapshot()), Snapshot())
      ensures Run(old(Snapshot()), steps, Snapshot())
    {
      ghost var was := Snapshot();
      LockRun(was);
      hide Run, PartlyDrained, FullyDrained, TakenOut;
      var cause := loop.cause;
      mutex := LoopHas;
      loop := TearHeld(cause);
      steps := [InTeardown(LockForTeardown)];
      while inFlight != map[]
        invariant loop == TearHeld(cause) && PartlyDrained(was, Snapshot()) && Run(was, steps, Snapshot())
        decreases |inFlight|
      {
        var id :| id in inFlight;
        DrainsFurther(was, Snapshot(), id);
        steps := TakeOne(id, steps, was);
      }
      UnlockRun(was, steps, Snapshot());
      steps := steps + [InTeardown(Unlock)];
      mutex := Free;
      loop := Grace(cause);
    }

    /** One turn of the drain. */
    method TakeOne(id: Id, ghost before: seq<Action>, ghost start: State) returns (ghost steps: seq<Action>)
      requires loop.TearHeld? && id in inFlight && inFlight[id] < |requests| && Run(start, before, Snapshot())
      modifies this`requests, this`inFlight, this`drained
      ensures Snapshot() == TakenOut(old(Snapshot()), id)
      ensures |inFlight| == |old(inFlight)| - 1 && Run(start, steps, Snapshot())
    {
      hide Run;
      var r := inFlight[id];
      ghost var s := Snapshot();
      P.OneEntryLess(inFlight, id);
      inFlight := inFlight - {id};
      drained := drained + [Entry(id, r)];
      requests := requests[r := requests[r].(tripped := true)];
      requests := requests[r := requests[r].(aborted := true)];
      assert requests == s.requests[r := s.requests[r].(tripped := true, aborted := true)];
      steps := before + [InTeardown(Take(id))] + [InTeardown(TripTaken)] + [InTeardown(AbortTaken)];
      TakeRun(start, before, s, id);
    }

    /** The worker's loop once its queue is closed: everything left is applied, in order, one at a time. */
    method ServeNotes() returns (ghost steps: seq<Action>)
      requires notes.worker.Idle?
      modifies this`notes
      ensures notes.queue == [] && notes.worker.Idle? && notes.log == old(notes).log
      ensures notes.applied == old(notes).applied + OpsOf(old(notes).queue)
      ensures notes.store == D.Run(old(notes).store, OpsOf(old(notes).queue), enc)
      ensures old(notes).queue != [] ==> notes.done == old(notes).queue[|old(notes).queue| - 1].number
      ensures Run(old(Snapshot()), steps, Snapshot())
    {
      StartServing(notes, enc);
      hide D.Step, D.Run, OpsOf, Served;
      steps := [];
      ghost var was := notes;
      ghost var n := 0;
      while notes.queue != []
        invariant n <= |was.queue| && notes.queue == was.queue[n..] && Served(was, notes, n, enc)
        invariant notes.worker.Idle? && Run(old(Snapshot()), steps, Snapshot())
        decreases |notes.queue|
      {
        hide Run;
        ghost var s := Snapshot();
        var note := notes.queue[0];
        ghost var before := notes;
        notes := notes.(worker := Handling(note), queue := notes.queue[1..]);
        notes := notes.(worker := Handled(note.number), applied := notes.applied + [note.op],
                        store := D.Step(notes.store, note.op, enc));
        notes := notes.(worker := Idle, done := note.number);
        ServesOneMore(was, before, notes, n, enc);
        OneNoteRun(old(Snapshot()), steps, s);
        steps := steps + [InWorker(TakeNote)] + [InWorker(ApplyNote)] + [InWorker(PublishNote)];
        n := n + 1;
      }
      ServedAll(was, notes, n, enc);
    }
  }

  // ----- how far the worker has come

  /** `now` is `was` with the first `n` notifications of its queue applied. */
  ghost predicate Served(was: Notes, now: Notes, n: nat, enc: Text.Encoding) {
    && n <= |was.queue| && now.log == was.log
    && now.applied == was.applied + OpsOf(was.queue[..n])
    && now.store == D.Run(was.store, OpsOf(was.queue[..n]), enc)
    && (n > 0 ==> now.done == was.queue[n - 1].number)
  }

  lemma StartServing(was: Notes, enc: Text.Encoding)
    ensures Served(was, was, 0, enc) && was.queue[0..] == was.queue
  {
    assert was.queue[..0] == [] && OpsOf([]) == [];
  }

  lemma ServesOneMore(was: Notes, now: Notes, next: Notes, n: nat, enc: Text.Encoding)
    requires Served(was, now, n, enc) && n < |was.queue|
    requires var note := was.queue[n];
      && next.log == now.log && next.applied == now.applied + [note.op] && next.done == note.number
      && next.store == D.Step(now.store, note.op, enc)
    ensures Served(was, next, n + 1, enc)
  {
    hide D.Step, D.Run;
    OneMoreOp(was.queue, n);
    N.RunOneMore(was.store, OpsOf(was.queue[..n]), was.queue[n].op, enc);
    hide OpsOf;
  }

  lemma ServedAll(was: Notes, now: Notes, n: nat, enc: Text.Encoding)
    requires Served(was, now, n, enc) && n == |was.queue|
    ensures now.log == was.log && now.applied == was.applied + OpsOf(was.queue)
    ensures now.store == D.Run(was.store, OpsOf(was.queue), enc)
    ensures was.queue != [] ==> now.done == was.queue[|was.queue| - 1].number
  {
    assert was.queue[..n] == was.queue;
  }

  // ----- how far a drain has come

  ghost predicate PartlyDrained(was: State, now: State) {
    && now.inFlight.Keys <= was.inFlight.Keys
    && (forall id :: id in now.inFlight ==> now.inFlight[id] == was.inFlight[id])
    && |now.requests| == |was.requests|
    && (forall id :: id in was.inFlight ==> was.inFlight[id] < |was.requests| && was.requests[was.inFlight[id]].id == id)
    && (forall u :: 0 <= u < |was.requests| ==> now.requests[u] == StoppedIfTaken(was, now, u))
    && |now.drained| + |now.inFlight| == |was.drained| + |was.inFlight| && was.drained <= now.drained
    && (forall id :: id in was.inFlight && id !in now.inFlight ==> Entry(id, was.inFlight[id]) in now.drained)
  }

  function StoppedIfTaken(was: State, now: State, u: nat): Request
    requires u < |was.requests|
  {
    var q := was.requests[u];
    if M.InFlight(was, u) && q.id !in now.inFlight then q.(tripped := true, aborted := true) else q
  }

  /** One entry taken out, its token tripped and its task aborted. */
  function TakenOut(s: State, id: Id): State
    requires id in s.inFlight && s.inFlight[id] < |s.requests|
  {
    var r := s.inFlight[id];
    s.(inFlight := s.inFlight - {id}, drained := s.drained + [Entry(id, r)],
       requests := s.requests[r := s.requests[r].(tripped := true, aborted := true)])
  }

  lemma DrainsFurther(was: State, s: State, id: Id)
    requires PartlyDrained(was, s) && id in s.inFlight
    ensures s.inFlight[id] < |s.requests| && PartlyDrained(was, TakenOut(s, id))
  {
    DrainStops(was, s, id);
    hide StoppedIfTaken;
    P.OneEntryLess(s.inFlight, id);
  }

  lemma DrainStops(was: State, s: State, id: Id)
    requires PartlyDrained(was, s) && id in s.inFlight
    ensures s.inFlight[id] < |s.requests|
    ensures var t := TakenOut(s, id);
      forall u :: 0 <= u < |was.requests| ==> t.requests[u] == StoppedIfTaken(was, t, u)
  {
  }

  /** Every request that had an entry is tripped and aborted, the others are as they were, and each entry is noted once. */
  ghost predicate FullyDrained(was: State, now: State) {
    && now.inFlight == map[] && |now.requests| == |was.requests|
    && (forall u :: 0 <= u < |was.requests| ==>
          now.requests[u] == if M.InFlight(was, u) then was.requests[u].(tripped := true, aborted := true) else was.requests[u])
    && |now.drained| == |was.drained| + |was.inFlight| && was.drained <= now.drained
    && (forall id :: id in was.inFlight ==> Entry(id, was.inFlight[id]) in now.drained)
  }

  lemma LockRun(was: State)
    requires was.loop.TearWait? && was.mutex.Free?
    requires forall id :: id in was.inFlight ==> was.inFlight[id] < |was.requests| && was.requests[was.inFlight[id]].id == id
    ensures var s := was.(loop := TearHeld(was.loop.cause), mutex := LoopHas);
      Run(was, [InTeardown(LockForTeardown)], s) && PartlyDrained(was, s)
  {
    RunOne(was, InTeardown(LockForTeardown));
  }

  lemma UnlockRun(was: State, steps: seq<Action>, s: State)
    requires Run(was, steps, s) && PartlyDrained(was, s) && s.loop.TearHeld? && s.inFlight == map[]
    ensures var t := s.(loop := Grace(s.loop.cause), mutex := Free);
      Run(was, steps + [InTeardown(Unlock)], t) && FullyDrained(was, t)
  {
    RunMore(was, steps, s, InTeardown(Unlock));
    hide Run;
  }

  // ----- the runs these bodies are

  function RefusalSteps(id: Id, work: nat): seq<Action> {
    [FromClient(ReadRequest(id, Feature, work)), InSpawn(LockForSpawn), InSpawn(Refuse), InSpawn(SendRefusal)]
  }

  lemma RefusedRun(s: State, id: Id, work: nat)
    requires s.loop.Reading? && s.mutex.Free? && s.initialized && !s.shutdownRequested && id in s.inFlight
    ensures Run(s, RefusalSteps(id, work),
      s.(requests := s.requests + [Request(id, Feature, |s.notes.log|, true, false, work, Unspawned, false, false, false)],
         answers := s.answers + [Answer(id, |s.requests|, RefusedDuplicate)]))
  {
    var s1 := Input(s, ReadRequest(id, Feature, work));
    var s2 := Runtime.Spawn(s1, LockForSpawn);
    var s3 := Runtime.Spawn(s2, Refuse);
    var t := Runtime.Spawn(s3, SendRefusal);
    var acts := RefusalSteps(id, work);
    RunOne(s3, InSpawn(SendRefusal));
    RunFirst(s2, InSpawn(Refuse), [InSpawn(SendRefusal)], t);
    RunFirst(s1, InSpawn(LockForSpawn), acts[2..], t);
    RunFirst(s, FromClient(ReadRequest(id, Feature, work)), acts[1..], t);
    hide Run;
    assert [FromClient(ReadRequest(id, Feature, work))] + acts[1..] == acts;
  }

  /** A cancellation that finds nothing to cancel. */
  function MissSteps(id: Id): seq<Action> {
    [FromClient(ReadCancel(id)), InCancel(LockForCancel), InCancel(LookUp)]
  }

  lemma MissRun(s: State, id: Id)
    requires s.loop.Reading? && s.mutex.Free? && id !in s.inFlight
    ensures Run(s, MissSteps(id), s)
  {
    var s1 := Input(s, ReadCancel(id));
    var s2 := Runtime.Cancel(s1, LockForCancel);
    assert Runtime.Cancel(s2, LookUp) == s;
    RunOne(s2, InCancel(LookUp));
    RunFirst(s1, InCancel(LockForCancel), [InCancel(LookUp)], s);
    RunFirst(s, FromClient(ReadCancel(id)), MissSteps(id)[1..], s);
    hide Run;
    assert [FromClient(ReadCancel(id))] + MissSteps(id)[1..] == MissSteps(id);
  }

  lemma TakeRun(start: State, before: seq<Action>, s: State, id: Id)
    requires Run(start, before, s) && s.loop.TearHeld? && id in s.inFlight && s.inFlight[id] < |s.requests|
    ensures Run(start, before + [InTeardown(Take(id))] + [InTeardown(TripTaken)] + [InTeardown(AbortTaken)], TakenOut(s, id))
  {
    hide Run;
    var r := s.inFlight[id];
    var s1 := Tear(s, Take(id));
    var s2 := Tear(s1, TripTaken);
    var s3 := Tear(s2, AbortTaken);
    assert s3.requests == s.requests[r := s.requests[r].(tripped := true, aborted := true)];
    RunMore(start, before, s, InTeardown(Take(id)));
    RunMore(start, before + [InTeardown(Take(id))], s1, InTeardown(TripTaken));
    RunMore(start, before + [InTeardown(Take(id))] + [InTeardown(TripTaken)], s2, InTeardown(AbortTaken));
  }

  lemma OneNoteRun(start: State, before: seq<Action>, s: State)
    requires Run(start, before, s) && s.notes.worker.Idle? && s.notes.queue != []
    ensures var note := s.notes.queue[0];
      Run(start, before + [InWorker(TakeNote)] + [InWorker(ApplyNote)] + [InWorker(PublishNote)],
        s.(notes := s.notes.(queue := s.notes.queue[1..], applied := s.notes.applied + [note.op],
                             store := D.Step(s.notes.store, note.op, s.enc), done := note.number)))
  {
    hide Run, D.Step;
    var s1 := Apply(s, InWorker(TakeNote));
    var s2 := Apply(s1, InWorker(ApplyNote));
    RunMore(start, before, s, InWorker(TakeNote));
    RunMore(start, before + [InWorker(TakeNote)], s1, InWorker(ApplyNote));
    RunMore(start, before + [InWorker(TakeNote)] + [InWorker(ApplyNote)], s2, InWorker(PublishNote));
  }

  function OpsOf(queue: seq<Note>): (ops: seq<D.Op>)
    ensures |ops| == |queue| && forall i :: 0 <= i < |queue| ==> ops[i] == queue[i].op
  {
    if queue == [] then [] else [queue[0].op] + OpsOf(queue[1..])
  }

  lemma OneMoreOp(queue: seq<Note>, n: nat)
    requires n < |queue|
    ensures OpsOf(queue[..n + 1]) == OpsOf(queue[..n]) + [queue[n].op]
  {
  }
}
