/**
  What the client sent, as the steps of a run show it (src/server.rs:407-537):
  which notifications count as received, what each request found when it came,
  and which steps answered. The state is told against this record of the steps.
 */
module RuntimeReceipts {
  import opened Runtime
  import M = RuntimeMutex
  import D = Documents

  /** A request read: its id and kind, the notifications received before it, and how far the server was. */
  datatype Receipt = Receipt(id: Id, kind: Kind, notes: seq<D.Op>, initialized: bool, shutdown: bool)

  /** `notes`: the notifications read after a successful initialize; `strays`: messages that did not parse. */
  datatype Record = Record(
    initialized: bool, shutdown: bool, notes: seq<D.Op>, receipts: seq<Receipt>, strays: nat)

  const NOTHING := Record(false, false, [], [], 0)

  function Noted(h: Record, a: Action): Record {
    match a
    case FromClient(ReadNote(op)) => if h.initialized then h.(notes := h.notes + [op]) else h
    case FromClient(ReadRequest(id, kind, _)) =>
      h.(receipts := h.receipts + [Receipt(id, kind, h.notes, h.initialized, h.shutdown)])
    case FromClient(ReadUnparsable) => h.(strays := h.strays + 1)
    case InSetup(InitializeEnds(true)) => h.(initialized := true)
    case InSetup(ShutdownProceeds) => h.(shutdown := true)
    case _ => h
  }

  function History(h: Record, acts: seq<Action>): Record
    decreases |acts|
  {
    if acts == [] then h else History(Noted(h, acts[0]), acts[1..])
  }

  /** The record of a run from the start. */
  function Sent(acts: seq<Action>): Record {
    History(NOTHING, acts)
  }

  // ----- the state agrees with the record

  predicate ReceiptFits(q: Request, p: Receipt, notes: seq<D.Op>) {
    && q.id == p.id && q.kind == p.kind && q.watermark == |p.notes|
    && q.initializedThen == p.initialized && q.shutdownThen == p.shutdown
    && p.notes <= notes
  }

  ghost predicate ReceiptsFit(requests: seq<Request>, receipts: seq<Receipt>, notes: seq<D.Op>) {
    && |requests| == |receipts|
    && forall r :: 0 <= r < |requests| ==> ReceiptFits(requests[r], receipts[r], notes)
  }

  ghost predicate Agrees(s: State, h: Record) {
    && s.initialized == h.initialized && s.shutdownRequested == h.shutdown
    && s.notes.log == h.notes && s.strays == h.strays
    && ReceiptsFit(s.requests, h.receipts, h.notes)
  }

  lemma InputAgrees(s: State, a: InputStep, h: Record)
    requires CanInput(s, a) && Agrees(s, h)
    ensures Agrees(Input(s, a), Noted(h, FromClient(a)))
  {
    if a.ReadRequest? {
      RequestAgrees(s, a.id, a.kind, a.work, h);
    } else if a.ReadNote? && s.initialized {
      NoteAgrees(s, a.op, h);
    }
    hide Receive, Accept, ReceiptsFit;
  }

  lemma RequestAgrees(s: State, id: Id, kind: Kind, work: nat, h: Record)
    requires Agrees(s, h)
    ensures Agrees(Receive(s, id, kind, work), Noted(h, FromClient(ReadRequest(id, kind, work))))
  {
  }

  lemma NoteAgrees(s: State, op: D.Op, h: Record)
    requires Agrees(s, h) && s.initialized
    ensures Agrees(s.(notes := Accept(s.notes, op)), Noted(h, FromClient(ReadNote(op))))
  {
  }

  lemma SetupAgrees(s: State, a: SetupStep, h: Record)
    requires M.Inv(s) && CanSetup(s, a) && Agrees(s, h)
    ensures Agrees(Setup(s, a), Noted(h, InSetup(a)))
  {
    hide M.Exclusive, M.MapSound, M.TokensFirst, ReceiptsFit;
  }

  /** The steps that are not recorded leave what is recorded alone. */
  predicate SameRequest(q: Request, p: Request) {
    && p.id == q.id && p.kind == q.kind && p.watermark == q.watermark
    && p.initializedThen == q.initializedThen && p.shutdownThen == q.shutdownThen
  }

  ghost predicate Unrecorded(s: State, t: State) {
    && t.initialized == s.initialized && t.shutdownRequested == s.shutdownRequested
    && t.notes.log == s.notes.log && t.strays == s.strays
    && |t.requests| == |s.requests|
    && forall r :: 0 <= r < |s.requests| ==> SameRequest(s.requests[r], t.requests[r])
  }

  lemma UnrecordedAgrees(s: State, t: State, h: Record)
    requires Unrecorded(s, t) && Agrees(s, h)
    ensures Agrees(t, h)
  {
    forall r | 0 <= r < |t.requests| ensures ReceiptFits(t.requests[r], h.receipts[r], h.notes) {
      assert SameRequest(s.requests[r], t.requests[r]) && ReceiptFits(s.requests[r], h.receipts[r], h.notes);
    }
  }

  lemma SpawnUnrecorded(s: State, a: SpawnStep)
    requires CanSpawn(s, a)
    ensures Unrecorded(s, Spawn(s, a))
  {
  }

  lemma CancelUnrecorded(s: State, a: CancelStep)
    requires CanCancel(s, a)
    ensures Unrecorded(s, Cancel(s, a))
  {
  }

  lemma TearUnrecorded(s: State, a: TearStep)
    requires CanTear(s, a)
    ensures Unrecorded(s, Tear(s, a))
  {
  }

  lemma WorkUnrecorded(s: State, a: WorkerStep)
    requires CanWork(s.notes, a, TearingDown(s.loop))
    ensures Unrecorded(s, s.(notes := Work(s.notes, a, s.enc)))
  {
    hide D.Step;
  }

  lemma TaskUnrecorded(s: State, u: nat, a: TaskStep)
    requires CanTask(s, u, a)
    ensures Unrecorded(s, Task(s, u, a))
  {
    M.TaskFrame(s, u, a);
    M.StepFrame(s, u, a);
    TaskKeepsLog(s, u, a);
    hide Task, Stepped, CanTask;
  }

  lemma TaskKeepsLog(s: State, u: nat, a: TaskStep)
    requires CanTask(s, u, a)
    ensures Task(s, u, a).notes.log == s.notes.log && Task(s, u, a).strays == s.strays
  {
    hide D.Step, Stepped;
  }

  lemma StepAgrees(s: State, a: Action, h: Record)
    requires M.Inv(s) && Enabled(s, a) && Agrees(s, h)
    ensures Agrees(Apply(s, a), Noted(h, a))
  {
    hide Input, Setup, Spawn, Cancel, Tear, Work, Task, Agrees, Unrecorded, M.Inv;
    hide CanInput, CanSetup, CanSpawn, CanCancel, CanTear, CanWork, CanTask;
    match a
    case FromClient(b) => InputAgrees(s, b, h);
    case InSetup(b) => SetupAgrees(s, b, h);
    case InSpawn(b) =>
      SpawnUnrecorded(s, b);
      UnrecordedAgrees(s, Apply(s, a), h);
    case InCancel(b) =>
      CancelUnrecorded(s, b);
      UnrecordedAgrees(s, Apply(s, a), h);
    case InTeardown(b) =>
      TearUnrecorded(s, b);
      UnrecordedAgrees(s, Apply(s, a), h);
    case InWorker(b) =>
      WorkUnrecorded(s, b);
      UnrecordedAgrees(s, Apply(s, a), h);
    case InTask(u, b) =>
      TaskUnrecorded(s, u, b);
      UnrecordedAgrees(s, Apply(s, a), h);
  }

  lemma {:induction false} RunAgrees(s: State, acts: seq<Action>, t: State, h: Record)
    requires M.Inv(s) && Run(s, acts, t) && Agrees(s, h)
    ensures Agrees(t, History(h, acts))
    decreases |acts|
  {
    hide M.Inv, Enabled, Apply, Agrees, Noted;
    if acts != [] {
      M.StepKeeps(s, acts[0]);
      StepAgrees(s, acts[0], h);
      RunAgrees(Apply(s, acts[0]), acts[1..], t, Noted(h, acts[0]));
    }
  }

  /**
    Over every run: the notifications logged are exactly those read after a
    successful initialize, in order; the requests are exactly those read, in
    order, each with its id, its kind, how far the server was, and as its
    watermark the number of notifications received before it; and there is one
    parse-error response for every message that did not parse.
   */
  lemma ReceivedIsWhatWasSent(i: State, acts: seq<Action>, s: State)
    requires Init(i) && Run(i, acts, s)
    ensures s.notes.log == Sent(acts).notes && s.strays == Sent(acts).strays
    ensures s.initialized == Sent(acts).initialized && s.shutdownRequested == Sent(acts).shutdown
    ensures |s.requests| == |Sent(acts).receipts|
    ensures forall r :: 0 <= r < |s.requests| ==>
      var q := s.requests[r]; var p := Sent(acts).receipts[r];
      && q.id == p.id && q.kind == p.kind && q.watermark == |p.notes|
      && q.initializedThen == p.initialized && q.shutdownThen == p.shutdown && p.notes <= Sent(acts).notes
  {
    M.InitInv(i);
    RunAgrees(i, acts, s, NOTHING);
    hide Run, M.Inv;
    forall r | 0 <= r < |s.requests| ensures ReceiptFits(s.requests[r], Sent(acts).receipts[r], Sent(acts).notes) {
    }
  }
}
