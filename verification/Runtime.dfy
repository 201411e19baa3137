/**
  The request and notification runtime (src/server.rs:310-561, 583-704, 739-759)
  as a step system: the message loop, one task per feature request, the
  serialized notification worker, the in-flight map behind its mutex, the
  permits of the concurrency cap, and the teardown. One action is one atomic
  step of one of these; any enabled action may come next.
 */
module Runtime {
  import opened Wrappers
  import Strings
  import Text
  import D = Documents
  import J = JsonRpc

  type Id = J.RequestId

  // ----- requests and their tasks

  datatype Kind = Initialize | Shutdown | Feature

  /** What a handler came to, or the panic that ended it. */
  datatype Outcome = Succeeded(value: J.Json) | Failed(error: J.ResponseError) | HandlerPanicked

  /** Where the task of a request is. `Unspawned` requests have none: the loop answers them itself. */
  datatype Pc =
    | Unspawned
    | Waiting                               // for the watermark
    | Queued                                // for a permit
    | Running                               // in the handler's body
    | AtClaim(outcome: Outcome)             // wants the mutex, to claim the response
    | Claiming(outcome: Outcome)            // holds the mutex
    | Claimed(outcome: Outcome, owner: nat) // took the entry of request `owner`; to send
    | Closing                               // sent, or found no entry; to give back its permit
    | Done
    | Dropped                               // aborted

  /** A request received, what held at its receipt, and the state of its task. */
  datatype Request = Request(
    id: Id, kind: Kind, watermark: nat, initializedThen: bool, shutdownThen: bool,
    work: nat, pc: Pc, permit: bool, tripped: bool, aborted: bool)

  datatype Mutex = Free | LoopHas | TaskHas(task: nat)

  datatype Reply =
    | NotInitialized | InitializeOk | InitializeFailed | AlreadyInitialized
    | ShutdownOk | ShutdownFailed | RefusedShuttingDown | RefusedDuplicate
    | Cancelled
    | Handler(task: nat, outcome: Outcome)

  /** A response put on the output queue: the id it carries, and the request it settles. */
  datatype Answer = Answer(id: Id, owner: nat, reply: Reply)

  /** An entry of the in-flight map, as the teardown takes it out. */
  datatype Entry = Entry(id: Id, owner: nat)

  // ----- notifications and their worker

  datatype Note = Note(number: nat, op: D.Op)

  datatype Worker = Idle | Handling(note: Note) | Handled(number: nat) | Ended

  /** Every notification accepted, those not yet taken, and what the worker has done with the others. */
  datatype Notes = Notes(
    log: seq<D.Op>, queue: seq<Note>, worker: Worker, stopping: bool,
    applied: seq<D.Op>, store: D.Entries, done: nat)

  // ----- the message loop

  datatype Cause = ExitAfterShutdown | ExitEarly | CleanEof | FramingError | WriterFailed | Signal

  datatype Loop =
    | Reading
    | Initializing(r: nat)
    | ShutdownWait(r: nat)
    | ShuttingDown(r: nat)
    | SpawnWait(r: nat)                     // wants the mutex
    | SpawnHeld(r: nat)
    | Refusing(r: nat)
    | Registering(r: nat)                   // the task exists, its entry does not; mutex still held
    | CancelWait(id: Id)
    | CancelHeld(id: Id)
    | CancelRemoved(id: Id, r: nat)
    | CancelTripped(id: Id, r: nat)
    | CancelAborted(id: Id, r: nat)
    | TearWait(cause: Cause)
    | TearHeld(cause: Cause)
    | TearRemoved(cause: Cause, r: nat)
    | TearTripped(cause: Cause, r: nat)
    | Grace(cause: Cause)
    | Over(cause: Cause)

  datatype State = State(
    cap: Option<nat>,
    enc: Text.Encoding,
    loop: Loop,
    initialized: bool,
    shutdownRequested: bool,
    notes: Notes,
    requests: seq<Request>,                 // every request received, in receipt order
    inFlight: map<Id, nat>,
    mutex: Mutex,
    free: nat,
    answers: seq<Answer>,
    drained: seq<Entry>,
    strays: nat)                            // parse-error responses, which carry no id

  predicate Init(s: State) {
    && s.loop == Reading && !s.initialized && !s.shutdownRequested
    && s.notes == Notes([], [], Idle, false, [], map[], 0)
    && s.requests == [] && s.inFlight == map[] && s.mutex == Free
    && s.free == (if s.cap.Some? then s.cap.value else 0)
    && s.answers == [] && s.drained == [] && s.strays == 0
  }

  /** Every notification up to the watermark is done, or there is no worker left to wait for. */
  predicate WaitOver(notes: Notes, watermark: nat) {
    watermark == 0 || notes.done >= watermark || notes.worker == Ended
  }

  /** The loop has stopped reading and dropped its end of the notification queue. */
  predicate TearingDown(loop: Loop) {
    loop.TearWait? || loop.TearHeld? || loop.TearRemoved? || loop.TearTripped? || loop.Grace? || loop.Over?
  }

  function Replied(s: State, id: Id, owner: nat, reply: Reply): State {
    s.(answers := s.answers + [Answer(id, owner, reply)])
  }

  /** Replace request `u`. */
  function Set(s: State, u: nat, request: Request): State
    requires u < |s.requests|
  {
    s.(requests := s.requests[u := request])
  }

  function Move(s: State, u: nat, pc: Pc): State
    requires u < |s.requests|
  {
    Set(s, u, s.requests[u].(pc := pc))
  }

  // ----- what the connection brings

  datatype InputStep =
    | ReadRequest(id: Id, kind: Kind, work: nat)
    | ReadCancel(id: Id)
    | ReadNote(op: D.Op)
    | ReadExit
    | ReadUnparsable
    | ReadIgnored                           // a response, or a cancellation without an id
    | ReadEnd(cause: Cause)

  predicate CanInput(s: State, a: InputStep) {
    && s.loop.Reading?
    && (a.ReadEnd? ==> a.cause.CleanEof? || a.cause.FramingError? || a.cause.WriterFailed? || a.cause.Signal?)
  }

  function Input(s: State, a: InputStep): State {
    match a
    case ReadRequest(id, kind, work) => Receive(s, id, kind, work)
    case ReadCancel(id) => s.(loop := CancelWait(id))
    case ReadNote(op) => if s.initialized then s.(notes := Accept(s.notes, op)) else s
    case ReadExit => s.(loop := TearWait(if s.shutdownRequested then ExitAfterShutdown else ExitEarly))
    case ReadUnparsable => s.(strays := s.strays + 1)
    case ReadIgnored => s
    case ReadEnd(cause) => s.(loop := TearWait(cause))
  }

  function Receive(s: State, id: Id, kind: Kind, work: nat): State {
    var r := |s.requests|;
    var request := Request(
      id, kind, |s.notes.log|, s.initialized, s.shutdownRequested, work, Unspawned, false, false, false);
    var t := s.(requests := s.requests + [request]);
    match kind
    case Initialize =>
      if s.initialized then Replied(t, id, r, AlreadyInitialized) else t.(loop := Initializing(r))
    case Shutdown =>
      if !s.initialized then Replied(t, id, r, NotInitialized) else t.(loop := ShutdownWait(r))
    case Feature =>
      if !s.initialized then Replied(t, id, r, NotInitialized)
      else if s.shutdownRequested then Replied(t, id, r, RefusedShuttingDown)
      else t.(loop := SpawnWait(r))
  }

  function Accept(notes: Notes, op: D.Op): Notes {
    notes.(log := notes.log + [op], queue := notes.queue + [Note(|notes.log| + 1, op)])
  }

  // ----- initialize and shutdown, handled in the loop itself

  datatype SetupStep = InitializeEnds(ok: bool) | ShutdownProceeds | ShutdownEnds(ok: bool)

  predicate CanSetup(s: State, a: SetupStep) {
    match a
    case InitializeEnds(_) => s.loop.Initializing? && s.loop.r < |s.requests|
    case ShutdownProceeds =>
      s.loop.ShutdownWait? && s.loop.r < |s.requests| && WaitOver(s.notes, s.requests[s.loop.r].watermark)
    case ShutdownEnds(_) => s.loop.ShuttingDown? && s.loop.r < |s.requests|
  }

  function Setup(s: State, a: SetupStep): State
    requires CanSetup(s, a)
  {
    var r := s.loop.r;
    match a
    case InitializeEnds(ok) =>
      Replied(s, s.requests[r].id, r, if ok then InitializeOk else InitializeFailed)
        .(loop := Reading, initialized := ok)
    case ShutdownProceeds => s.(loop := ShuttingDown(r), shutdownRequested := true)
    case ShutdownEnds(ok) =>
      Replied(s, s.requests[r].id, r, if ok then ShutdownOk else ShutdownFailed).(loop := Reading)
  }

  // ----- spawning: check, spawn and insert under one hold of the mutex

  datatype SpawnStep = LockForSpawn | Refuse | SendRefusal | StartTask | Register

  predicate CanSpawn(s: State, a: SpawnStep) {
    match a
    case LockForSpawn => s.loop.SpawnWait? && s.mutex.Free?
    case Refuse => s.loop.SpawnHeld? && s.loop.r < |s.requests| && s.requests[s.loop.r].id in s.inFlight
    case SendRefusal => s.loop.Refusing? && s.loop.r < |s.requests|
    case StartTask => s.loop.SpawnHeld? && s.loop.r < |s.requests| && s.requests[s.loop.r].id !in s.inFlight
    case Register => s.loop.Registering? && s.loop.r < |s.requests|
  }

  function Spawn(s: State, a: SpawnStep): State
    requires CanSpawn(s, a)
  {
    var r := s.loop.r;
    match a
    case LockForSpawn => s.(loop := SpawnHeld(r), mutex := LoopHas)
    case Refuse => s.(loop := Refusing(r), mutex := Free)
    case SendRefusal => Replied(s, s.requests[r].id, r, RefusedDuplicate).(loop := Reading)
    case StartTask => Move(s, r, Waiting).(loop := Registering(r))
    case Register => s.(inFlight := s.inFlight[s.requests[r].id := r], loop := Reading, mutex := Free)
  }

  // ----- cancelling, under one hold of the mutex

  datatype CancelStep = LockForCancel | LookUp | Trip | Abort | AnswerCancelled

  predicate CanCancel(s: State, a: CancelStep) {
    match a
    case LockForCancel => s.loop.CancelWait? && s.mutex.Free?
    case LookUp => s.loop.CancelHeld?
    case Trip => s.loop.CancelRemoved? && s.loop.r < |s.requests|
    case Abort => s.loop.CancelTripped? && s.loop.r < |s.requests|
    case AnswerCancelled => s.loop.CancelAborted?
  }

  function Cancel(s: State, a: CancelStep): State
    requires CanCancel(s, a)
  {
    var id := s.loop.id;
    match a
    case LockForCancel => s.(loop := CancelHeld(id), mutex := LoopHas)
    case LookUp =>
      if id in s.inFlight then s.(loop := CancelRemoved(id, s.inFlight[id]), inFlight := s.inFlight - {id})
      else s.(loop := Reading, mutex := Free)
    case Trip => Set(s, s.loop.r, s.requests[s.loop.r].(tripped := true)).(loop := CancelTripped(id, s.loop.r))
    case Abort => Set(s, s.loop.r, s.requests[s.loop.r].(aborted := true)).(loop := CancelAborted(id, s.loop.r))
    case AnswerCancelled => Replied(s, id, s.loop.r, Reply.Cancelled).(loop := Reading, mutex := Free)
  }

  // ----- the teardown, draining under one hold of the mutex

  datatype TearStep = LockForTeardown | Take(id: Id) | TripTaken | AbortTaken | Unlock | ExpireGrace | Finish

  predicate CanTear(s: State, a: TearStep) {
    match a
    case LockForTeardown => s.loop.TearWait? && s.mutex.Free?
    case Take(id) => s.loop.TearHeld? && id in s.inFlight
    case TripTaken => s.loop.TearRemoved? && s.loop.r < |s.requests|
    case AbortTaken => s.loop.TearTripped? && s.loop.r < |s.requests|
    case Unlock => s.loop.TearHeld? && s.inFlight == map[]
    case ExpireGrace => s.loop.Grace? && !s.notes.stopping
    case Finish => s.loop.Grace? && s.notes.worker.Ended?
  }

  function Tear(s: State, a: TearStep): State
    requires CanTear(s, a)
  {
    var cause := s.loop.cause;
    match a
    case LockForTeardown => s.(loop := TearHeld(cause), mutex := LoopHas)
    case Take(id) =>
      s.(loop := TearRemoved(cause, s.inFlight[id]), inFlight := s.inFlight - {id},
         drained := s.drained + [Entry(id, s.inFlight[id])])
    case TripTaken => Set(s, s.loop.r, s.requests[s.loop.r].(tripped := true)).(loop := TearTripped(cause, s.loop.r))
    case AbortTaken => Set(s, s.loop.r, s.requests[s.loop.r].(aborted := true)).(loop := TearHeld(cause))
    case Unlock => s.(loop := Grace(cause), mutex := Free)
    case ExpireGrace => s.(notes := s.notes.(stopping := true))
    case Finish => s.(loop := Over(cause))
  }

  // ----- the notification worker

  datatype WorkerStep = TakeNote | ApplyNote | PublishNote | EndWorker

  /** `closed` says the loop has dropped its end of the queue; an abort lands at an await. */
  predicate CanWork(notes: Notes, a: WorkerStep, closed: bool) {
    match a
    case TakeNote => notes.worker.Idle? && notes.queue != []
    case ApplyNote => notes.worker.Handling?
    case PublishNote => notes.worker.Handled?
    case EndWorker =>
      || (notes.worker.Idle? && notes.queue == [] && closed)
      || (notes.stopping && (notes.worker.Idle? || notes.worker.Handling?))
  }

  function Work(notes: Notes, a: WorkerStep, enc: Text.Encoding): Notes
    requires CanWork(notes, a, true)
  {
    match a
    case TakeNote => notes.(worker := Handling(notes.queue[0]), queue := notes.queue[1..])
    case ApplyNote =>
      var note := notes.worker.note;
      notes.(worker := Handled(note.number), applied := notes.applied + [note.op],
             store := D.Step(notes.store, note.op, enc))
    case PublishNote => notes.(worker := Idle, done := notes.worker.number)
    case EndWorker => notes.(worker := Ended)
  }

  // ----- the task of one request

  datatype TaskStep =
    | Ready | Acquire | Look(key: Strings.Bytes) | EndHandler(outcome: Outcome)
    | LockForClaim | RemoveEntry | Send | Close
    | Drop                                  // an abort, which lands at an await

  predicate CanTask(s: State, u: nat, a: TaskStep) {
    && u < |s.requests|
    && var q := s.requests[u];
       match a
       case Ready => q.pc.Waiting? && WaitOver(s.notes, q.watermark)
       case Acquire => q.pc.Queued? && (s.cap.Some? ==> s.free > 0)
       case Look(_) => q.pc.Running? && q.work > 0
       case EndHandler(_) => q.pc.Running?
       case LockForClaim => q.pc.AtClaim? && s.mutex.Free?
       case RemoveEntry => q.pc.Claiming?
       case Send => q.pc.Claimed?
       case Close => q.pc.Closing?
       case Drop => q.aborted && (q.pc.Waiting? || q.pc.Queued? || q.pc.Running?)
  }

  /** The request after a step of its task. */
  function Stepped(s: State, u: nat, a: TaskStep): Request
    requires CanTask(s, u, a)
  {
    var q := s.requests[u];
    match a
    case Ready => q.(pc := Queued)
    case Acquire => q.(pc := Running, permit := s.cap.Some?)
    case Look(_) => q.(work := q.work - 1)
    case EndHandler(outcome) => q.(pc := AtClaim(outcome))
    case LockForClaim => q.(pc := Claiming(q.pc.outcome))
    case RemoveEntry => q.(pc := if q.id in s.inFlight then Claimed(q.pc.outcome, s.inFlight[q.id]) else Closing)
    case Send => q.(pc := Closing)
    case Close => q.(pc := Done, permit := false)
    case Drop => q.(pc := Dropped, permit := false)
  }

  function Task(s: State, u: nat, a: TaskStep): State
    requires CanTask(s, u, a)
  {
    var q := s.requests[u];
    var t := Set(s, u, Stepped(s, u, a));
    match a
    case Acquire => if s.cap.Some? then t.(free := s.free - 1) else t
    case Look(key) => t.(notes := s.notes.(store := D.Step(s.notes.store, D.Looked(key), s.enc)))
    case LockForClaim => t.(mutex := TaskHas(u))
    case RemoveEntry => t.(inFlight := s.inFlight - {q.id}, mutex := Free)
    case Send => Replied(t, q.id, q.pc.owner, Handler(u, q.pc.outcome))
    case Close => if q.permit then t.(free := s.free + 1) else t
    case Drop => if q.permit then t.(free := s.free + 1) else t
    case _ => t
  }

  // ----- all together

  datatype Action =
    | FromClient(input: InputStep)
    | InSetup(setup: SetupStep)
    | InSpawn(spawn: SpawnStep)
    | InCancel(cancel: CancelStep)
    | InTeardown(tear: TearStep)
    | InWorker(work: WorkerStep)
    | InTask(u: nat, task: TaskStep)

  predicate Enabled(s: State, a: Action) {
    match a
    case FromClient(b) => CanInput(s, b)
    case InSetup(b) => CanSetup(s, b)
    case InSpawn(b) => CanSpawn(s, b)
    case InCancel(b) => CanCancel(s, b)
    case InTeardown(b) => CanTear(s, b)
    case InWorker(b) => CanWork(s.notes, b, TearingDown(s.loop))
    case InTask(u, b) => CanTask(s, u, b)
  }

  function Apply(s: State, a: Action): State
    requires Enabled(s, a)
  {
    match a
    case FromClient(b) => Input(s, b)
    case InSetup(b) => Setup(s, b)
    case InSpawn(b) => Spawn(s, b)
    case InCancel(b) => Cancel(s, b)
    case InTeardown(b) => Tear(s, b)
    case InWorker(b) => s.(notes := Work(s.notes, b, s.enc))
    case InTask(u, b) => Task(s, u, b)
  }

  // ----- runs

  /** The enabled steps `acts`, one after another, lead from `s` to `t`. */
  predicate Run(s: State, acts: seq<Action>, t: State)
    decreases |acts|
  {
    if acts == [] then s == t
    else Enabled(s, acts[0]) && Run(Apply(s, acts[0]), acts[1..], t)
  }

  ghost predicate Reachable(s: State) {
    exists i: State, acts: seq<Action> :: Init(i) && Run(i, acts, s)
  }

  lemma {:induction false} RunConcat(s: State, a: seq<Action>, t: State, b: seq<Action>, u: State)
    requires Run(s, a, t) && Run(t, b, u)
    ensures Run(s, a + b, u)
    decreases |a|
  {
    hide Enabled, Apply;
    if a == [] {
      assert a + b == b;
    } else {
      RunConcat(Apply(s, a[0]), a[1..], t, b, u);
      assert (a + b)[1..] == a[1..] + b;
    }
  }

  lemma RunFirst(s: State, a: Action, acts: seq<Action>, t: State)
    requires Enabled(s, a) && Run(Apply(s, a), acts, t)
    ensures Run(s, [a] + acts, t)
  {
    hide Enabled, Apply;
    assert ([a] + acts)[1..] == acts;
  }

  lemma RunOne(s: State, a: Action)
    requires Enabled(s, a)
    ensures Run(s, [a], Apply(s, a))
  {
    hide Enabled, Apply;
    assert [a][1..] == [];
  }

  lemma RunMore(s: State, acts: seq<Action>, t: State, a: Action)
    requires Run(s, acts, t) && Enabled(t, a)
    ensures Run(s, acts + [a], Apply(t, a))
  {
    hide Enabled, Apply, Run;
    RunOne(t, a);
    RunConcat(s, acts, t, [a], Apply(t, a));
  }

  lemma StaysReachable(s: State, acts: seq<Action>, t: State)
    requires Reachable(s) && Run(s, acts, t)
    ensures Reachable(t)
  {
    hide Init, Run;
    var i, before :| Init(i) && Run(i, before, s);
    RunConcat(i, before, s, acts, t);
  }
}
