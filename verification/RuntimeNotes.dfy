/**
  The serialized notification worker and its completion watermark
  (src/server.rs:347-381, 464-471, 583-589, 656): notifications are applied one at
  a time in receipt order, and a handler starts only after all those received
  before its request.
 */
module RuntimeNotes {
  import opened Wrappers
  import opened Strings
  import opened Runtime
  import D = Documents
  import Text
  import M = RuntimeMutex
  import R = RuntimeReceipts

  // ----- the worker

  /** How many notifications the worker has taken from the queue. */
  function Taken(n: Notes): int {
    |n.log| - |n.queue|
  }

  /** The queue is the rest of the receipt log, numbered from one. */
  ghost predicate QueueFits(n: Notes) {
    && Taken(n) >= 0
    && forall i :: 0 <= i < |n.queue| ==> n.queue[i] == Note(Taken(n) + i + 1, n.log[Taken(n) + i])
  }

  ghost predicate WorkerFits(n: Notes) {
    && 0 <= |n.applied| <= |n.log| && n.applied == n.log[..|n.applied|] && n.done <= |n.applied|
    && match n.worker
       case Idle => |n.applied| == Taken(n) && n.done == Taken(n)
       case Handling(note) =>
         Taken(n) >= 1 && note == Note(Taken(n), n.log[Taken(n) - 1]) && |n.applied| == Taken(n) - 1 == n.done
       case Handled(number) => Taken(n) >= 1 && number == Taken(n) == |n.applied| && n.done == Taken(n) - 1
       case Ended => |n.applied| <= Taken(n)
  }

  ghost predicate NotesFit(n: Notes) {
    QueueFits(n) && WorkerFits(n)
  }

  lemma WorkKeeps(n: Notes, a: WorkerStep, closed: bool, enc: Text.Encoding)
    requires NotesFit(n) && CanWork(n, a, closed)
    ensures NotesFit(Work(n, a, enc))
  {
    hide D.Step;
    var m := Work(n, a, enc);
    if a.TakeNote? {
      assert n.queue[0] == Note(Taken(n) + 1, n.log[Taken(n)]);
      assert forall i :: 0 <= i < |m.queue| ==> m.queue[i] == n.queue[i + 1];
    }
  }

  lemma AcceptKeeps(n: Notes, op: D.Op)
    requires NotesFit(n)
    ensures NotesFit(Accept(n, op))
  {
    var m := Accept(n, op);
    assert m.log[..|n.applied|] == n.log[..|n.applied|];
  }

  /** One step takes the notification log and its handling forward, never back. */
  predicate NotesGrow(n: Notes, m: Notes) {
    && n.log <= m.log && n.applied <= m.applied && n.done <= m.done
    && (n.worker.Ended? ==> m.worker.Ended?)
  }

  lemma WorkGrows(n: Notes, a: WorkerStep, closed: bool, enc: Text.Encoding)
    requires NotesFit(n) && CanWork(n, a, closed)
    ensures NotesGrow(n, Work(n, a, enc))
  {
    hide D.Step, QueueFits;
  }

  // ----- requests and the watermark

  predicate PastWait(pc: Pc) {
    pc.Queued? || pc.Running? || pc.AtClaim? || pc.Claiming? || pc.Claimed? || pc.Closing? || pc.Done?
  }

  predicate Waited(q: Request, n: Notes) {
    && q.watermark <= |n.log|
    && (PastWait(q.pc) ==> WaitOver(n, q.watermark))
  }

  ghost predicate AllWaited(s: State) {
    forall u :: 0 <= u < |s.requests| ==> Waited(s.requests[u], s.notes)
  }

  /** The worker only ends once the loop is tearing down, and is only aborted after the grace. */
  predicate WorkerLives(s: State) {
    && (s.notes.worker.Ended? ==> TearingDown(s.loop))
    && (s.notes.stopping ==> s.loop.Grace? || s.loop.Over?)
  }

  ghost predicate Inv(s: State) {
    NotesFit(s.notes) && AllWaited(s) && WorkerLives(s)
  }

  lemma InputKeeps(s: State, a: InputStep)
    requires CanInput(s, a) && Inv(s)
    ensures Inv(Input(s, a))
  {
    hide NotesFit;
    if a.ReadNote? {
      AcceptKeeps(s.notes, a.op);
    }
  }

  lemma SetupKeeps(s: State, a: SetupStep)
    requires CanSetup(s, a) && Inv(s)
    ensures Inv(Setup(s, a))
  {
    hide NotesFit;
  }

  lemma SpawnKeeps(s: State, a: SpawnStep)
    requires CanSpawn(s, a) && Inv(s)
    ensures Inv(Spawn(s, a))
  {
    hide NotesFit;
  }

  lemma CancelKeeps(s: State, a: CancelStep)
    requires CanCancel(s, a) && Inv(s)
    ensures Inv(Cancel(s, a))
  {
    hide NotesFit;
  }

  lemma TearKeeps(s: State, a: TearStep)
    requires CanTear(s, a) && Inv(s)
    ensures Inv(Tear(s, a))
  {
  }

  lemma WorkerKeeps(s: State, a: WorkerStep)
    requires CanWork(s.notes, a, TearingDown(s.loop)) && Inv(s)
    ensures Inv(s.(notes := Work(s.notes, a, s.enc)))
  {
    WorkKeeps(s.notes, a, TearingDown(s.loop), s.enc);
    WorkGrows(s.notes, a, TearingDown(s.loop), s.enc);
    hide D.Step, NotesFit;
  }

  lemma TaskKeeps(s: State, u: nat, a: TaskStep)
    requires CanTask(s, u, a) && Inv(s)
    ensures Inv(Task(s, u, a))
  {
    M.TaskFrame(s, u, a);
    TaskNotes(s, u, a);
    OneWaited(s, u, a);
    hide Task, CanTask, Stepped, QueueFits, Waited;
    hide WaitOver;
    forall v | 0 <= v < |s.requests| ensures Waited(s.requests[v], Task(s, u, a).notes) {
      SameForWaiting(s.requests[v], s.notes, Task(s, u, a).notes);
    }
  }

  lemma SameForWaiting(q: Request, n: Notes, m: Notes)
    requires m == n.(store := m.store) && Waited(q, n)
    ensures Waited(q, m)
  {
  }

  /** A task only ever touches the store, and of that only the cached indexes. */
  lemma TaskNotes(s: State, u: nat, a: TaskStep)
    requires CanTask(s, u, a)
    ensures Task(s, u, a).notes ==
      s.notes.(store := if a.Look? then D.Step(s.notes.store, D.Looked(a.key), s.enc) else s.notes.store)
  {
    hide D.Step, Stepped;
  }

  lemma OneWaited(s: State, u: nat, a: TaskStep)
    requires CanTask(s, u, a) && AllWaited(s)
    ensures Waited(Stepped(s, u, a), Task(s, u, a).notes)
  {
    TaskNotes(s, u, a);
    hide D.Step, Task;
  }

  lemma StepKeeps(s: State, a: Action)
    requires Enabled(s, a) && Inv(s)
    ensures Inv(Apply(s, a))
  {
    hide Input, Setup, Spawn, Cancel, Tear, Work, Task;
    hide CanInput, CanSetup, CanSpawn, CanCancel, CanTear, CanWork, CanTask;
    match a
    case FromClient(b) => InputKeeps(s, b);
    case InSetup(b) => SetupKeeps(s, b);
    case InSpawn(b) => SpawnKeeps(s, b);
    case InCancel(b) => CancelKeeps(s, b);
    case InTeardown(b) => TearKeeps(s, b);
    case InWorker(b) => WorkerKeeps(s, b);
    case InTask(u, b) => TaskKeeps(s, u, b);
  }

  lemma {:induction false} RunKeeps(s: State, acts: seq<Action>, t: State)
    requires Inv(s) && Run(s, acts, t)
    ensures Inv(t)
    decreases |acts|
  {
    hide Inv, Enabled, Apply;
    if acts != [] {
      StepKeeps(s, acts[0]);
      RunKeeps(Apply(s, acts[0]), acts[1..], t);
    }
  }

  lemma ReachableSound(s: State)
    requires Reachable(s)
    ensures Inv(s)
  {
    hide Run;
    var i, acts :| Init(i) && Run(i, acts, s);
    RunKeeps(i, acts, s);
  }

  // ----- what shutdown and the end wait for

  /**
    While a shutdown waits its watermark is all that was received, and until it
    is answered all of that is applied; a worker that was not stopped ends with
    nothing left.
   */
  predicate CaughtUp(s: State) {
    && (s.loop.ShutdownWait? ==> s.loop.r < |s.requests| && s.requests[s.loop.r].watermark == |s.notes.log|)
    && (s.loop.ShuttingDown? ==> |s.notes.applied| == |s.notes.log|)
    && (s.notes.worker.Ended? && !s.notes.stopping ==> |s.notes.applied| == |s.notes.log|)
  }

  lemma InputCatchesUp(s: State, a: InputStep)
    requires CanInput(s, a) && Inv(s) && CaughtUp(s)
    ensures CaughtUp(Input(s, a))
  {
    hide NotesFit, AllWaited;
  }

  lemma SetupCatchesUp(s: State, a: SetupStep)
    requires CanSetup(s, a) && Inv(s) && CaughtUp(s)
    ensures CaughtUp(Setup(s, a))
  {
    hide QueueFits, AllWaited;
  }

  lemma SpawnCatchesUp(s: State, a: SpawnStep)
    requires CanSpawn(s, a) && CaughtUp(s)
    ensures CaughtUp(Spawn(s, a))
  {
  }

  lemma CancelCatchesUp(s: State, a: CancelStep)
    requires CanCancel(s, a) && CaughtUp(s)
    ensures CaughtUp(Cancel(s, a))
  {
  }

  lemma TearCatchesUp(s: State, a: TearStep)
    requires CanTear(s, a) && CaughtUp(s)
    ensures CaughtUp(Tear(s, a))
  {
  }

  lemma WorkCatchesUp(s: State, a: WorkerStep)
    requires CanWork(s.notes, a, TearingDown(s.loop)) && Inv(s) && CaughtUp(s)
    ensures CaughtUp(s.(notes := Work(s.notes, a, s.enc)))
  {
    WorkKeeps(s.notes, a, TearingDown(s.loop), s.enc);
    WorkGrows(s.notes, a, TearingDown(s.loop), s.enc);
    WorkKeepsLog(s.notes, a, TearingDown(s.loop), s.enc);
    hide D.Step, QueueFits, AllWaited;
  }

  lemma WorkKeepsLog(n: Notes, a: WorkerStep, closed: bool, enc: Text.Encoding)
    requires CanWork(n, a, closed)
    ensures Work(n, a, enc).log == n.log && Work(n, a, enc).stopping == n.stopping
  {
    hide D.Step;
  }

  lemma TaskCatchesUp(s: State, u: nat, a: TaskStep)
    requires CanTask(s, u, a) && CaughtUp(s)
    ensures CaughtUp(Task(s, u, a))
  {
    M.TaskFrame(s, u, a);
    M.StepFrame(s, u, a);
    TaskNotes(s, u, a);
    hide Task, CanTask, Stepped;
  }

  lemma StepCatchesUp(s: State, a: Action)
    requires Enabled(s, a) && Inv(s) && CaughtUp(s)
    ensures CaughtUp(Apply(s, a))
  {
    hide Input, Setup, Spawn, Cancel, Tear, Work, Task, Inv, CaughtUp;
    hide CanInput, CanSetup, CanSpawn, CanCancel, CanTear, CanWork, CanTask;
    match a
    case FromClient(b) => InputCatchesUp(s, b);
    case InSetup(b) => SetupCatchesUp(s, b);
    case InSpawn(b) => SpawnCatchesUp(s, b);
    case InCancel(b) => CancelCatchesUp(s, b);
    case InTeardown(b) => TearCatchesUp(s, b);
    case InWorker(b) => WorkCatchesUp(s, b);
    case InTask(u, b) => TaskCatchesUp(s, u, b);
  }

  lemma {:induction false} RunCatchesUp(s: State, acts: seq<Action>, t: State)
    requires Inv(s) && CaughtUp(s) && Run(s, acts, t)
    ensures Inv(t) && CaughtUp(t)
    decreases |acts|
  {
    hide Inv, CaughtUp, Enabled, Apply;
    if acts != [] {
      StepKeeps(s, acts[0]);
      StepCatchesUp(s, acts[0]);
      RunCatchesUp(Apply(s, acts[0]), acts[1..], t);
    }
  }

  // ----- over every run

  /** What the worker has applied is a prefix of what the client sent, in order, and covers what it has published. */
  lemma AppliedInReceiptOrder(i: State, acts: seq<Action>, s: State)
    requires Init(i) && Run(i, acts, s)
    ensures s.notes.applied <= R.Sent(acts).notes && s.notes.done <= |s.notes.applied|
  {
    R.ReceivedIsWhatWasSent(i, acts, s);
    RunKeeps(i, acts, s);
    hide Run, R.Sent, AllWaited, WorkerLives, QueueFits;
  }

  /**
    Until the teardown begins, when the body of a request's handler starts, and
    as long as it runs, every notification the client sent before the request has
    been applied, and no other out of order.
   */
  lemma HandlerSeesEarlierNotes(i: State, acts: seq<Action>, s: State, u: nat)
    requires Init(i) && Run(i, acts, s)
    requires !TearingDown(s.loop) && u < |s.requests| && PastWait(s.requests[u].pc)
    ensures u < |R.Sent(acts).receipts|
    ensures R.Sent(acts).receipts[u].notes <= s.notes.applied <= R.Sent(acts).notes
  {
    R.ReceivedIsWhatWasSent(i, acts, s);
    RunKeeps(i, acts, s);
    hide Run, R.Sent, QueueFits;
    assert Waited(s.requests[u], s.notes);
  }

  /** When a shutdown handler starts, and as long as it runs, every notification sent has been applied. */
  lemma ShutdownSeesEarlierNotes(i: State, acts: seq<Action>, s: State)
    requires Init(i) && Run(i, acts, s) && (CanSetup(s, ShutdownProceeds) || s.loop.ShuttingDown?)
    ensures s.notes.applied == R.Sent(acts).notes
  {
    R.ReceivedIsWhatWasSent(i, acts, s);
    RunCatchesUp(i, acts, s);
    hide Run, R.Sent, QueueFits, AllWaited;
  }

  /** A server that has ended has ended its worker; unless the grace ran out, that had applied everything. */
  lemma EndAppliesEverything(i: State, acts: seq<Action>, s: State)
    requires Init(i) && Run(i, acts, s) && s.loop.Over? && InTeardown(ExpireGrace) !in acts
    ensures s.notes.worker.Ended? && s.notes.applied == R.Sent(acts).notes
  {
    R.ReceivedIsWhatWasSent(i, acts, s);
    RunCatchesUp(i, acts, s);
    OverIsEnded(i, acts, s);
    hide Run, R.Sent, QueueFits, AllWaited;
  }

  lemma StopsByGrace(s: State, a: Action)
    requires Enabled(s, a) && (s.loop.Over? ==> s.notes.worker.Ended?)
    ensures Apply(s, a).notes.stopping ==> s.notes.stopping || a == InTeardown(ExpireGrace)
    ensures Apply(s, a).loop.Over? ==> Apply(s, a).notes.worker.Ended?
  {
    hide D.Step, Input, Setup, Spawn, Cancel, Task, CanInput, CanSetup, CanSpawn, CanCancel, CanTask;
    match a
    case InTask(u, b) =>
      M.TaskFrame(s, u, b);
      TaskNotes(s, u, b);
    case InTeardown(b) =>
    case InWorker(b) =>
    case _ => LoopStaysOn(s, a);
  }

  lemma LoopStaysOn(s: State, a: Action)
    requires Enabled(s, a) && (a.FromClient? || a.InSetup? || a.InSpawn? || a.InCancel?)
    ensures !s.loop.Over? && !Apply(s, a).loop.Over?
    ensures Apply(s, a).notes.stopping == s.notes.stopping
  {
    hide Task, CanTask, Work, CanWork, Tear, CanTear;
  }

  lemma {:induction false} OverIsEnded(s: State, acts: seq<Action>, t: State)
    requires Run(s, acts, t) && (s.loop.Over? ==> s.notes.worker.Ended?)
    ensures t.loop.Over? ==> t.notes.worker.Ended?
    ensures t.notes.stopping ==> s.notes.stopping || InTeardown(ExpireGrace) in acts
    decreases |acts|
  {
    hide Enabled, Apply;
    if acts != [] {
      StopsByGrace(s, acts[0]);
      OverIsEnded(Apply(s, acts[0]), acts[1..], t);
    }
  }

  // ----- the store a handler reads

  /** The same documents, whatever the cached indexes beside them. */
  ghost predicate SameDocs(a: D.Entries, b: D.Entries) {
    a.Keys == b.Keys && forall uri :: uri in a ==> a[uri].document == b[uri].document
  }

  lemma ChangeOnDocs(a: D.Entries, b: D.Entries, op: D.Op, enc: Text.Encoding)
    requires SameDocs(a, b) && op.Changed?
    ensures SameDocs(D.Step(a, op, enc), D.Step(b, op, enc))
  {
    hide D.Patched, D.Panics;
    if op.uri in a {
      assert a[op.uri].document == b[op.uri].document;
    }
  }

  lemma LookOnDocs(a: D.Entries, key: Bytes, enc: Text.Encoding)
    ensures SameDocs(D.Step(a, D.Looked(key), enc), a)
  {
    hide D.LineIndex.New;
  }

  /** An operation's effect on the documents depends on the documents alone, and a lookup has none. */
  lemma StepOnDocs(a: D.Entries, b: D.Entries, op: D.Op, enc: Text.Encoding)
    requires SameDocs(a, b)
    ensures SameDocs(D.Step(a, op, enc), D.Step(b, op, enc))
    ensures op.Looked? ==> SameDocs(D.Step(a, op, enc), b)
  {
    if op.Changed? {
      ChangeOnDocs(a, b, op, enc);
      hide D.Step, SameDocs;
    } else if op.Looked? {
      LookOnDocs(a, op.key, enc);
      LookOnDocs(b, op.key, enc);
      hide D.Step;
    }
  }

  lemma {:induction false} RunOneMore(entries: D.Entries, ops: seq<D.Op>, op: D.Op, enc: Text.Encoding)
    ensures D.Run(entries, ops + [op], enc) == D.Step(D.Run(entries, ops, enc), op, enc)
    decreases |ops|
  {
    hide D.Step;
    if ops == [] {
      assert [op][1..] == [] && ops + [op] == [op];
      assert D.Run(D.Step(entries, op, enc), [], enc) == D.Step(entries, op, enc);
    } else {
      RunOneMore(D.Step(entries, ops[0], enc), ops[1..], op, enc);
      assert (ops + [op])[1..] == ops[1..] + [op];
    }
  }

  ghost predicate StoreFits(s: State) {
    SameDocs(s.notes.store, D.Run(map[], s.notes.applied, s.enc))
  }

  lemma StoreStep(s: State, a: Action)
    requires Enabled(s, a) && StoreFits(s)
    ensures StoreFits(Apply(s, a))
  {
    hide SameDocs, D.Step, D.Run;
    match a
    case InWorker(b) => WorkStore(s, b);
    case InTask(u, b) =>
      TaskNotes(s, u, b);
      TaskEnc(s, u, b);
      hide Task, CanTask;
      if b.Look? {
        StepOnDocs(s.notes.store, D.Run(map[], s.notes.applied, s.enc), D.Looked(b.key), s.enc);
      }
    case _ =>
      LoopStore(s, a);
  }

  lemma TaskEnc(s: State, u: nat, a: TaskStep)
    requires CanTask(s, u, a)
    ensures Task(s, u, a).enc == s.enc
  {
    hide D.Step, Stepped;
  }

  lemma WorkStore(s: State, a: WorkerStep)
    requires CanWork(s.notes, a, TearingDown(s.loop)) && StoreFits(s)
    ensures StoreFits(s.(notes := Work(s.notes, a, s.enc)))
  {
    hide SameDocs, D.Step, D.Run;
    if a.ApplyNote? {
      var op := s.notes.worker.note.op;
      RunOneMore(map[], s.notes.applied, op, s.enc);
      StepOnDocs(s.notes.store, D.Run(map[], s.notes.applied, s.enc), op, s.enc);
    }
  }

  predicate SameStore(s: State, t: State) {
    t.enc == s.enc && t.notes.store == s.notes.store && t.notes.applied == s.notes.applied
  }

  lemma InputStore(s: State, a: InputStep)
    requires CanInput(s, a)
    ensures SameStore(s, Input(s, a))
  {
  }

  lemma TearStore(s: State, a: TearStep)
    requires CanTear(s, a)
    ensures SameStore(s, Tear(s, a))
  {
  }

  lemma SpawnStore(s: State, a: SpawnStep)
    requires CanSpawn(s, a)
    ensures SameStore(s, Spawn(s, a))
  {
  }

  lemma LoopStore(s: State, a: Action)
    requires Enabled(s, a) && !a.InWorker? && !a.InTask?
    ensures SameStore(s, Apply(s, a))
  {
    match a
    case FromClient(b) => InputStore(s, b);
    case InTeardown(b) => TearStore(s, b);
    case InSpawn(b) => SpawnStore(s, b);
    case _ => hide Input, Tear, Spawn;
  }

  lemma {:induction false} StoreRun(s: State, acts: seq<Action>, t: State)
    requires StoreFits(s) && Run(s, acts, t)
    ensures StoreFits(t)
    decreases |acts|
  {
    hide StoreFits, Enabled, Apply;
    if acts != [] {
      StoreStep(s, acts[0]);
      StoreRun(Apply(s, acts[0]), acts[1..], t);
    }
  }

  /**
    A running handler that reads the document store finds the documents made by
    some prefix of the notifications the client sent, in order, and the prefix
    reaches at least to where its request came in.
   */
  lemma HandlerReadsFoldOfPrefix(i: State, acts: seq<Action>, s: State, u: nat)
    requires Init(i) && Run(i, acts, s)
    requires !TearingDown(s.loop) && u < |s.requests| && PastWait(s.requests[u].pc)
    ensures u < |R.Sent(acts).receipts|
    ensures exists k :: FoldOfPrefix(s, R.Sent(acts).notes, k) && |R.Sent(acts).receipts[u].notes| <= k
  {
    HandlerSeesEarlierNotes(i, acts, s, u);
    hide SameDocs, D.Step, D.Run, Run, R.Sent;
    assert StoreFits(i) by { EmptyRun(i.enc); }
    StoreRun(i, acts, s);
    var k := |s.notes.applied|;
    assert R.Sent(acts).notes[..k] == s.notes.applied;
    assert StoreFits(s);
    assert FoldOfPrefix(s, R.Sent(acts).notes, k);
  }

  ghost predicate FoldOfPrefix(s: State, sent: seq<D.Op>, k: nat) {
    k <= |sent| && SameDocs(s.notes.store, D.Run(map[], sent[..k], s.enc))
  }

  lemma EmptyRun(enc: Text.Encoding)
    ensures SameDocs(map[], D.Run(map[], [], enc))
  {
  }

  // ----- its cached indexes

  /** While every range received is well-formed, no cached index is stale. */
  ghost predicate CachesFit(s: State) {
    D.AllInOrder(s.notes.log) ==> D.Coherent(s.notes.store)
  }

  lemma LookKeepsCoherence(store: D.Entries, key: Bytes, enc: Text.Encoding)
    requires D.Coherent(store)
    ensures D.Coherent(D.Step(store, D.Looked(key), enc))
  {
    D.StepCoherent(store, D.Looked(key), enc);
    hide D.Step, D.Coherent;
  }

  lemma NoteKeepsCoherence(store: D.Entries, op: D.Op, enc: Text.Encoding)
    requires D.Coherent(store) && D.AllInOrder([op])
    ensures D.Coherent(D.Step(store, op, enc))
  {
    D.InOrderRunNeverPanics(store, [op], enc);
    D.StepCoherent(store, op, enc);
    hide D.Step, D.Coherent, D.PanicsAt, D.AllInOrder;
    assert D.NeverPanics(store, [op], enc);
  }

  lemma CachesStep(s: State, a: Action)
    requires Enabled(s, a) && Inv(s) && CachesFit(s)
    ensures CachesFit(Apply(s, a))
  {
    hide D.Step, D.Coherent;
    match a
    case InWorker(b) =>
      if b.ApplyNote? && D.AllInOrder(s.notes.log) {
        NoteInLog(s);
        NoteKeepsCoherence(s.notes.store, s.notes.worker.note.op, s.enc);
      }
    case InTask(u, b) =>
      TaskNotes(s, u, b);
      hide Task, CanTask;
      if b.Look? && D.AllInOrder(s.notes.log) {
        LookKeepsCoherence(s.notes.store, b.key, s.enc);
      }
    case _ =>
      LoopStore(s, a);
      LoopLog(s, a);
      hide Apply, Enabled, Inv;
  }

  lemma LoopLog(s: State, a: Action)
    requires Enabled(s, a) && !a.InWorker? && !a.InTask?
    ensures s.notes.log <= Apply(s, a).notes.log
  {
    match a
    case FromClient(b) => hide Tear, Spawn;
    case InTeardown(b) => hide Input, Spawn;
    case InSpawn(b) => hide Input, Tear;
    case _ => hide Input, Tear, Spawn;
  }

  lemma NoteInLog(s: State)
    requires Inv(s) && s.notes.worker.Handling? && D.AllInOrder(s.notes.log)
    ensures D.AllInOrder([s.notes.worker.note.op])
  {
    hide QueueFits, AllWaited, D.InOrder;
  }

  lemma {:induction false} CachesRun(s: State, acts: seq<Action>, t: State)
    requires Inv(s) && CachesFit(s) && Run(s, acts, t)
    ensures CachesFit(t)
    decreases |acts|
  {
    hide Inv, CachesFit, Enabled, Apply;
    if acts != [] {
      StepKeeps(s, acts[0]);
      CachesStep(s, acts[0]);
      CachesRun(Apply(s, acts[0]), acts[1..], t);
    }
  }

  /** Over every interleaving of changes and lookups, a cached index belongs to the current text. */
  lemma ConcurrentCachesCoherent(i: State, acts: seq<Action>, s: State)
    requires Init(i) && Run(i, acts, s) && D.AllInOrder(R.Sent(acts).notes)
    ensures D.Coherent(s.notes.store)
  {
    R.ReceivedIsWhatWasSent(i, acts, s);
    hide Run, D.AllInOrder, R.Sent;
    CachesRun(i, acts, s);
  }
}
