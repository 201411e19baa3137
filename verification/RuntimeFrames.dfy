/** What the steps of the loop and the worker leave alone. */
module RuntimeFrames {
  import opened Wrappers
  import opened Runtime
  import M = RuntimeMutex
  import D = Documents

  /** The loop moves no task, except to start one; it hands out no permit, and no handler's answer. */
  ghost predicate Quiet(s: State, t: State) {
    && t.cap == s.cap && t.enc == s.enc && t.free == s.free
    && |s.requests| <= |t.requests|
    && (forall u :: 0 <= u < |s.requests| ==> SameTask(s.requests[u], t.requests[u]))
    && (forall u :: |s.requests| <= u < |t.requests| ==> t.requests[u].pc.Unspawned? && !t.requests[u].permit)
    && AnswersGrow(s.answers, t.answers)
  }

  predicate SameTask(q: Request, p: Request) {
    && p.permit == q.permit && p.work == q.work
    && (p.pc == q.pc || (p.pc.Waiting? && q.pc.Unspawned?))
  }

  predicate AnswersGrow(was: seq<Answer>, now: seq<Answer>) {
    || now == was
    || (|now| == |was| + 1 && now[..|was|] == was && !now[|was|].reply.Handler?)
  }

  lemma InputQuiet(s: State, a: InputStep)
    requires CanInput(s, a)
    ensures Quiet(s, Input(s, a))
  {
  }

  lemma SetupQuiet(s: State, a: SetupStep)
    requires CanSetup(s, a)
    ensures Quiet(s, Setup(s, a))
  {
  }

  /** A started task had none before. */
  predicate StartsUnspawned(s: State, a: SpawnStep)
    requires CanSpawn(s, a)
  {
    a.StartTask? ==> s.requests[s.loop.r].pc.Unspawned?
  }

  lemma SpawnQuiet(s: State, a: SpawnStep)
    requires CanSpawn(s, a) && StartsUnspawned(s, a)
    ensures Quiet(s, Spawn(s, a))
  {
  }

  lemma CancelQuiet(s: State, a: CancelStep)
    requires CanCancel(s, a)
    ensures Quiet(s, Cancel(s, a))
  {
  }

  lemma TearQuiet(s: State, a: TearStep)
    requires CanTear(s, a)
    ensures Quiet(s, Tear(s, a))
  {
  }

  lemma LoopQuiet(s: State, a: Action)
    requires Enabled(s, a) && !a.InTask?
    requires a.InSpawn? ==> StartsUnspawned(s, a.spawn)
    ensures Quiet(s, Apply(s, a))
  {
    hide Input, Setup, Spawn, Cancel, Tear, Work, CanInput, CanSetup, CanSpawn, CanCancel, CanTear, CanWork;
    match a
    case FromClient(b) => InputQuiet(s, b);
    case InSetup(b) => SetupQuiet(s, b);
    case InSpawn(b) => SpawnQuiet(s, b);
    case InCancel(b) => CancelQuiet(s, b);
    case InTeardown(b) => TearQuiet(s, b);
    case InWorker(b) =>
  }

  /** What the step of a task does to the permits and the answers. */
  lemma TaskFrame(s: State, u: nat, a: TaskStep)
    requires CanTask(s, u, a)
    ensures var t := Task(s, u, a); var q := s.requests[u];
      && t.cap == s.cap && t.enc == s.enc && t.requests == s.requests[u := Stepped(s, u, a)]
      && t.free == (if a.Acquire? && s.cap.Some? then s.free - 1
                    else if (a.Close? || a.Drop?) && q.permit then s.free + 1 else s.free)
      && t.answers == (if a.Send? then s.answers + [Answer(q.id, q.pc.owner, Handler(u, q.pc.outcome))] else s.answers)
  {
    hide D.Step, Stepped;
  }

  // ----- time only adds requests, trips and spawns

  ghost predicate Grows(s: State, t: State) {
    && |s.requests| <= |t.requests|
    && forall i :: 0 <= i < |s.requests| ==> Older(s.requests[i], t.requests[i])
  }

  predicate Older(q: Request, p: Request) {
    && p.id == q.id && p.kind == q.kind && p.watermark == q.watermark
    && p.initializedThen == q.initializedThen && p.shutdownThen == q.shutdownThen
    && (q.tripped ==> p.tripped) && (q.aborted ==> p.aborted)
    && (!q.pc.Unspawned? ==> !p.pc.Unspawned?)
  }

  lemma InputGrows(s: State, a: InputStep)
    requires CanInput(s, a)
    ensures Grows(s, Input(s, a))
  {
  }

  lemma SetupGrows(s: State, a: SetupStep)
    requires CanSetup(s, a)
    ensures Grows(s, Setup(s, a))
  {
  }

  lemma SpawnGrows(s: State, a: SpawnStep)
    requires CanSpawn(s, a)
    ensures Grows(s, Spawn(s, a))
  {
  }

  lemma CancelGrows(s: State, a: CancelStep)
    requires CanCancel(s, a)
    ensures Grows(s, Cancel(s, a))
  {
  }

  lemma TearGrows(s: State, a: TearStep)
    requires CanTear(s, a)
    ensures Grows(s, Tear(s, a))
  {
  }

  lemma TaskGrows(s: State, u: nat, a: TaskStep)
    requires CanTask(s, u, a)
    ensures Grows(s, Task(s, u, a))
  {
    M.TaskFrame(s, u, a);
    M.StepFrame(s, u, a);
    hide Task, Stepped, CanTask;
  }

  lemma StepGrows(s: State, a: Action)
    requires Enabled(s, a)
    ensures Grows(s, Apply(s, a))
  {
    hide Input, Setup, Spawn, Cancel, Tear, Work, Task;
    hide CanInput, CanSetup, CanSpawn, CanCancel, CanTear, CanWork, CanTask;
    match a
    case FromClient(b) => InputGrows(s, b);
    case InSetup(b) => SetupGrows(s, b);
    case InSpawn(b) => SpawnGrows(s, b);
    case InCancel(b) => CancelGrows(s, b);
    case InTeardown(b) => TearGrows(s, b);
    case InWorker(b) =>
    case InTask(u, b) => TaskGrows(s, u, b);
  }

  lemma {:induction false} RunGrows(s: State, acts: seq<Action>, t: State)
    requires Run(s, acts, t)
    ensures Grows(s, t)
    decreases |acts|
  {
    hide Enabled, Apply;
    if acts != [] {
      StepGrows(s, acts[0]);
      RunGrows(Apply(s, acts[0]), acts[1..], t);
    }
  }
}
