/** The server's life (src/server.rs:384-428, 443-561): initialize, serve, shut down, end. */
module RuntimeLifecycle {
  import opened Wrappers
  import opened Runtime
  import M = RuntimeMutex
  import F = RuntimeFrames
  import D = Documents
  import Text

  // ----- what a request received when can be told

  predicate ReplyFits(q: Request, reply: Reply) {
    match reply
    case NotInitialized => !q.kind.Initialize? && !q.initializedThen
    case InitializeOk => q.kind.Initialize? && !q.initializedThen
    case InitializeFailed => q.kind.Initialize? && !q.initializedThen
    case AlreadyInitialized => q.kind.Initialize? && q.initializedThen
    case ShutdownOk => q.kind.Shutdown? && q.initializedThen
    case ShutdownFailed => q.kind.Shutdown? && q.initializedThen
    case RefusedShuttingDown => q.kind.Feature? && q.initializedThen && q.shutdownThen
    case _ => Serviceable(q)
  }

  /** A feature request received while the server was running. */
  predicate Serviceable(q: Request) {
    q.kind.Feature? && q.initializedThen && !q.shutdownThen
  }

  predicate RequestFits(q: Request, initialized: bool, shutdownRequested: bool) {
    && (q.initializedThen ==> initialized) && (q.shutdownThen ==> shutdownRequested)
    && (!q.pc.Unspawned? ==> Serviceable(q))
  }

  ghost predicate RequestsFit(s: State) {
    forall u :: 0 <= u < |s.requests| ==> RequestFits(s.requests[u], s.initialized, s.shutdownRequested)
  }

  ghost predicate ClaimsFit(s: State) {
    forall u :: 0 <= u < |s.requests| && s.requests[u].pc.Claimed? ==>
      s.requests[u].pc.owner < |s.requests| && Serviceable(s.requests[s.requests[u].pc.owner])
  }

  ghost predicate AnswersFit(s: State) {
    forall k :: 0 <= k < |s.answers| ==>
      s.answers[k].owner < |s.requests| && ReplyFits(s.requests[s.answers[k].owner], s.answers[k].reply)
  }

  function Successes(answers: seq<Answer>): nat {
    if answers == [] then 0
    else Successes(answers[..|answers| - 1]) + (if answers[|answers| - 1].reply.InitializeOk? then 1 else 0)
  }

  predicate FlagsFit(s: State) {
    && (s.shutdownRequested ==> s.initialized)
    && (!s.initialized ==> s.notes.log == [])
    && Successes(s.answers) == (if s.initialized then 1 else 0)
  }

  ghost predicate Inv(s: State) {
    RequestsFit(s) && ClaimsFit(s) && AnswersFit(s) && FlagsFit(s)
  }

  lemma OneMoreAnswer(answers: seq<Answer>, a: Answer)
    ensures Successes(answers + [a]) == Successes(answers) + (if a.reply.InitializeOk? then 1 else 0)
  {
    assert (answers + [a])[..|answers|] == answers;
  }

  lemma {:induction false} SuccessCounts(answers: seq<Answer>, k: nat)
    requires k < |answers|
    ensures answers[k].reply.InitializeOk? ==> Successes(answers) > 0
    decreases |answers|
  {
    if k < |answers| - 1 {
      SuccessCounts(answers[..|answers| - 1], k);
    }
  }

  // ----- every step

  lemma ReceiveKeeps(s: State, id: Id, kind: Kind, work: nat)
    requires Inv(s) && s.loop.Reading?
    ensures Inv(Receive(s, id, kind, work))
  {
    hide Successes;
    var t := Receive(s, id, kind, work);
    if t.answers != s.answers {
      OneMoreAnswer(s.answers, t.answers[|s.answers|]);
    }
  }

  lemma InputKeeps(s: State, a: InputStep)
    requires CanInput(s, a) && Inv(s)
    ensures Inv(Input(s, a))
  {
    if a.ReadRequest? {
      ReceiveKeeps(s, a.id, a.kind, a.work);
    }
    hide Receive, Successes;
  }

  lemma SetupKeeps(s: State, a: SetupStep)
    requires M.Inv(s) && CanSetup(s, a) && Inv(s)
    ensures Inv(Setup(s, a))
  {
    hide Successes, M.Exclusive, M.MapSound, M.TokensFirst;
    var t := Setup(s, a);
    if !a.ShutdownProceeds? {
      OneMoreAnswer(s.answers, t.answers[|s.answers|]);
    }
  }

  lemma SpawnKeeps(s: State, a: SpawnStep)
    requires M.Inv(s) && CanSpawn(s, a) && Inv(s)
    ensures Inv(Spawn(s, a))
  {
    hide Successes, M.Exclusive, M.MapSound, M.TokensFirst;
    var t := Spawn(s, a);
    if a.SendRefusal? {
      OneMoreAnswer(s.answers, t.answers[|s.answers|]);
    }
  }

  lemma CancelKeeps(s: State, a: CancelStep)
    requires M.Inv(s) && CanCancel(s, a) && Inv(s)
    ensures Inv(Cancel(s, a))
  {
    hide Successes, M.Exclusive, M.MapSound, M.TokensFirst;
    if a.AnswerCancelled? {
      CancelledFits(s);
    } else {
      hide AnswersFit, ReplyFits;
    }
    hide M.LoopSound;
  }

  lemma CancelledFits(s: State)
    requires M.Inv(s) && CanCancel(s, AnswerCancelled) && Inv(s)
    ensures Inv(Cancel(s, AnswerCancelled))
  {
    hide Successes, M.Exclusive, M.MapSound, M.TokensFirst;
    var t := Cancel(s, AnswerCancelled);
    OneMoreAnswer(s.answers, t.answers[|s.answers|]);
    assert RequestFits(s.requests[s.loop.r], s.initialized, s.shutdownRequested);
  }

  lemma TearKeeps(s: State, a: TearStep)
    requires CanTear(s, a) && Inv(s)
    ensures Inv(Tear(s, a))
  {
    hide Successes;
  }

  lemma TaskKeeps(s: State, u: nat, a: TaskStep)
    requires M.Inv(s) && CanTask(s, u, a) && Inv(s)
    ensures Inv(Task(s, u, a))
  {
    TaskRequests(s, u, a);
    TaskClaims(s, u, a);
    TaskAnswers(s, u, a);
    TaskFlags(s, u, a);
    hide *;
    hide M.Inv;
  }

  lemma TaskRequests(s: State, u: nat, a: TaskStep)
    requires CanTask(s, u, a) && RequestsFit(s)
    ensures RequestsFit(Task(s, u, a))
  {
    M.TaskFrame(s, u, a);
    M.StepFrame(s, u, a);
    hide Task, Stepped, CanTask;
  }

  lemma TaskClaims(s: State, u: nat, a: TaskStep)
    requires M.Inv(s) && CanTask(s, u, a) && Inv(s)
    ensures ClaimsFit(Task(s, u, a))
  {
    M.TaskFrame(s, u, a);
    M.StepFrame(s, u, a);
    ClaimFits(s, u, a);
    hide Task, Stepped, CanTask, M.Inv, RequestsFit, AnswersFit, FlagsFit;
  }

  lemma TaskAnswers(s: State, u: nat, a: TaskStep)
    requires M.Inv(s) && CanTask(s, u, a) && Inv(s)
    ensures AnswersFit(Task(s, u, a))
  {
    assert u < |s.requests|;
    hide Task, Stepped, CanTask, M.Inv, M.BeforeRemoval, RequestsFit, FlagsFit, RequestFits;
    F.TaskFrame(s, u, a);
    M.StepFrame(s, u, a);
    ClaimFits(s, u, a);
  }

  lemma TaskFlags(s: State, u: nat, a: TaskStep)
    requires CanTask(s, u, a) && FlagsFit(s)
    ensures FlagsFit(Task(s, u, a))
  {
    F.TaskFrame(s, u, a);
    M.TaskFrame(s, u, a);
    TaskLog(s, u, a);
    hide Task, Stepped, CanTask, Successes;
    if a.Send? {
      OneMoreAnswer(s.answers, Task(s, u, a).answers[|s.answers|]);
    }
  }

  lemma TaskLog(s: State, u: nat, a: TaskStep)
    requires CanTask(s, u, a)
    ensures Task(s, u, a).notes.log == s.notes.log
  {
    hide D.Step, Stepped;
  }

  lemma ClaimFits(s: State, u: nat, a: TaskStep)
    requires M.Inv(s) && CanTask(s, u, a) && Inv(s)
    ensures var p := Stepped(s, u, a);
      p.pc.Claimed? ==> p.pc.owner < |s.requests| && Serviceable(s.requests[p.pc.owner])
    ensures a.Send? ==> s.requests[u].pc.Claimed?
  {
    hide M.Exclusive, M.LoopSound, M.TokensFirst;
  }

  lemma StepKeeps(s: State, a: Action)
    requires M.Inv(s) && Enabled(s, a) && Inv(s)
    ensures Inv(Apply(s, a))
  {
    hide Input, Setup, Spawn, Cancel, Tear, Work, Task;
    hide CanInput, CanSetup, CanSpawn, CanCancel, CanTear, CanWork, CanTask;
    hide M.Inv, Successes;
    match a
    case FromClient(b) => InputKeeps(s, b);
    case InSetup(b) => SetupKeeps(s, b);
    case InSpawn(b) => SpawnKeeps(s, b);
    case InCancel(b) => CancelKeeps(s, b);
    case InTeardown(b) => TearKeeps(s, b);
    case InWorker(b) => WorkLog(s.notes, b, TearingDown(s.loop), s.enc);
    case InTask(u, b) => TaskKeeps(s, u, b);
  }

  lemma WorkLog(n: Notes, a: WorkerStep, closed: bool, enc: Text.Encoding)
    requires CanWork(n, a, closed)
    ensures Work(n, a, enc).log == n.log
  {
    hide D.Step;
  }

  lemma {:induction false} RunKeeps(s: State, acts: seq<Action>, t: State)
    requires M.Inv(s) && Inv(s) && Run(s, acts, t)
    ensures Inv(t)
    decreases |acts|
  {
    hide M.Inv, Inv, Enabled, Apply;
    if acts != [] {
      M.StepKeeps(s, acts[0]);
      StepKeeps(s, acts[0]);
      RunKeeps(Apply(s, acts[0]), acts[1..], t);
    }
  }

  lemma ReachableSound(s: State)
    requires Reachable(s)
    ensures Inv(s)
  {
    hide M.Inv, Run;
    var i, acts :| Init(i) && Run(i, acts, s);
    M.InitInv(i);
    RunKeeps(i, acts, s);
  }

  /** Over every run, initialize succeeds at most once, and the server is initialized exactly when it has. */
  lemma InitializesOnce(s: State)
    requires Reachable(s)
    ensures Successes(s.answers) == if s.initialized then 1 else 0
    ensures s.shutdownRequested ==> s.initialized
  {
    ReachableSound(s);
    hide Reachable, RequestsFit, ClaimsFit, AnswersFit, Successes;
  }

  /** Before that, nothing is spawned, no notification is queued, and every answer is a refusal or a failure. */
  lemma NothingBeforeInitialize(s: State)
    requires Reachable(s) && !s.initialized
    ensures s.notes.log == []
    ensures forall u :: 0 <= u < |s.requests| ==> s.requests[u].pc.Unspawned?
    ensures forall k :: 0 <= k < |s.answers| ==> s.answers[k].reply.NotInitialized? || s.answers[k].reply.InitializeFailed?
  {
    ReachableSound(s);
    hide Reachable, Successes, ClaimsFit;
    forall k | 0 <= k < |s.answers|
      ensures s.answers[k].reply.NotInitialized? || s.answers[k].reply.InitializeFailed?
    {
      assert RequestFits(s.requests[s.answers[k].owner], s.initialized, s.shutdownRequested);
      SuccessCounts(s.answers, k);
    }
  }

  /**
    What each request is told follows from when it came: refusals go exactly to
    requests that came too early or too late, and only feature requests that came
    in between are ever spawned.
   */
  lemma AnswersFollowReceipt(s: State)
    requires Reachable(s)
    ensures forall k :: 0 <= k < |s.answers| ==>
      && s.answers[k].owner < |s.requests|
      && var q := s.requests[s.answers[k].owner]; var reply := s.answers[k].reply;
         && (reply.NotInitialized? <==> !q.initializedThen && !q.kind.Initialize?)
         && (reply.AlreadyInitialized? <==> q.initializedThen && q.kind.Initialize?)
         && (reply.RefusedShuttingDown? <==> q.initializedThen && q.shutdownThen && q.kind.Feature?)
         && (reply.ShutdownOk? || reply.ShutdownFailed? <==> q.initializedThen && q.kind.Shutdown?)
    ensures forall u :: 0 <= u < |s.requests| && !s.requests[u].pc.Unspawned? ==>
      s.requests[u].kind.Feature? && s.requests[u].initializedThen && !s.requests[u].shutdownThen
  {
    ReachableSound(s);
    hide Reachable, FlagsFit, ClaimsFit;
  }

  // ----- how it ends

  predicate EndsOk(cause: Cause) {
    cause.ExitAfterShutdown? || cause.CleanEof? || cause.Signal?
  }

  /** The first message or event among the steps that ends the loop, given whether a shutdown was accepted. */
  function Verdict(shutdown: bool, acts: seq<Action>): Option<Cause>
    decreases |acts|
  {
    if acts == [] then None
    else match acts[0]
      case FromClient(ReadExit) => Some(if shutdown then ExitAfterShutdown else ExitEarly)
      case FromClient(ReadEnd(cause)) => Some(cause)
      case InSetup(ShutdownProceeds) => Verdict(true, acts[1..])
      case _ => Verdict(shutdown, acts[1..])
  }

  predicate Ending(a: Action) {
    a == FromClient(ReadExit) || (a.FromClient? && a.input.ReadEnd?)
  }

  /** The teardown, once begun, keeps its cause; before that, steps that do not end the loop do not begin it. */
  predicate KeepsCause(s: State, t: State) {
    if TearingDown(s.loop) then TearingDown(t.loop) && t.loop.cause == s.loop.cause
    else !TearingDown(t.loop)
  }

  lemma InputEnds(s: State, a: InputStep)
    requires CanInput(s, a)
    ensures var t := Input(s, a);
      && !TearingDown(s.loop)
      && (a.ReadExit? ==> t.loop == TearWait(if s.shutdownRequested then ExitAfterShutdown else ExitEarly))
      && (a.ReadEnd? ==> t.loop == TearWait(a.cause))
      && (!a.ReadExit? && !a.ReadEnd? ==> !TearingDown(t.loop))
      && t.shutdownRequested == s.shutdownRequested
  {
  }

  lemma LoopEnds(s: State, a: Action)
    requires Enabled(s, a) && (a.InSetup? || a.InSpawn? || a.InCancel?)
    ensures var t := Apply(s, a);
      && !TearingDown(s.loop) && !TearingDown(t.loop)
      && t.shutdownRequested == (s.shutdownRequested || a == InSetup(ShutdownProceeds))
  {
    hide Task, CanTask, Work, CanWork, Tear, CanTear, Input, CanInput;
  }

  lemma TearEnds(s: State, a: TearStep)
    requires CanTear(s, a)
    ensures KeepsCause(s, Tear(s, a)) && TearingDown(s.loop)
  {
  }

  lemma EndStep(s: State, a: Action)
    requires Enabled(s, a)
    ensures var t := Apply(s, a);
      if Ending(a) then
        !TearingDown(s.loop) && TearingDown(t.loop)
        && Some(t.loop.cause) == Verdict(s.shutdownRequested, [a])
      else
        && KeepsCause(s, t)
        && (!TearingDown(s.loop) ==> t.shutdownRequested == (s.shutdownRequested || a == InSetup(ShutdownProceeds)))
  {
    hide Input, Setup, Spawn, Cancel, Tear, Work, Task;
    hide CanInput, CanSetup, CanSpawn, CanCancel, CanTear, CanWork, CanTask;
    match a
    case FromClient(b) => InputEnds(s, b);
    case InTeardown(b) => TearEnds(s, b);
    case InWorker(b) =>
    case InTask(u, b) => M.TaskFrame(s, u, b);
    case _ => LoopEnds(s, a);
  }

  lemma VerdictStep(shutdown: bool, acts: seq<Action>)
    requires acts != []
    ensures Verdict(shutdown, acts) ==
      if Ending(acts[0]) then Verdict(shutdown, [acts[0]])
      else Verdict(shutdown || acts[0] == InSetup(ShutdownProceeds), acts[1..])
  {
  }

  lemma {:induction false} EndingFollowsInput(s: State, acts: seq<Action>, t: State)
    requires Run(s, acts, t)
    ensures if TearingDown(s.loop) then TearingDown(t.loop) && t.loop.cause == s.loop.cause
      else if Verdict(s.shutdownRequested, acts).None? then !TearingDown(t.loop)
      else TearingDown(t.loop) && t.loop.cause == Verdict(s.shutdownRequested, acts).value
    decreases |acts|
  {
    hide Enabled, Apply;
    if acts != [] {
      EndStep(s, acts[0]);
      VerdictStep(s.shutdownRequested, acts);
      hide Verdict;
      EndingFollowsInput(Apply(s, acts[0]), acts[1..], t);
    }
  }

  /** What must have happened for the loop to be stopped by this cause. */
  predicate StoppedBy(loop: Loop, acts: seq<Action>) {
    TearingDown(loop) ==>
      match loop.cause
      case ExitAfterShutdown => FromClient(ReadExit) in acts && InSetup(ShutdownProceeds) in acts
      case ExitEarly => FromClient(ReadExit) in acts
      case cause => FromClient(ReadEnd(cause)) in acts
  }

  predicate ShutdownKnown(s: State, acts: seq<Action>) {
    s.shutdownRequested ==> InSetup(ShutdownProceeds) in acts
  }

  lemma StopStep(s: State, a: Action, past: seq<Action>)
    requires Enabled(s, a) && StoppedBy(s.loop, past) && ShutdownKnown(s, past)
    ensures StoppedBy(Apply(s, a).loop, past + [a]) && ShutdownKnown(Apply(s, a), past + [a])
  {
    EndStep(s, a);
    ShutdownStep(s, a);
    assert a in past + [a] && forall b :: b in past ==> b in past + [a];
    if a.FromClient? {
      InputEnds(s, a.input);
      hide Input;
    } else {
      hide Apply, Enabled;
    }
  }

  lemma ShutdownStep(s: State, a: Action)
    requires Enabled(s, a)
    ensures Apply(s, a).shutdownRequested ==> s.shutdownRequested || a == InSetup(ShutdownProceeds)
  {
    hide Input, Setup, Spawn, Cancel, Tear, Work, Task;
    hide CanInput, CanSetup, CanSpawn, CanCancel, CanTear, CanWork, CanTask;
    match a
    case FromClient(b) => InputEnds(s, b);
    case InTeardown(b) => TearKeepsShutdown(s, b);
    case InWorker(b) =>
    case InTask(u, b) => M.TaskFrame(s, u, b);
    case _ => LoopEnds(s, a);
  }

  lemma TearKeepsShutdown(s: State, a: TearStep)
    requires CanTear(s, a)
    ensures Tear(s, a).shutdownRequested == s.shutdownRequested
  {
  }

  lemma {:induction false} StopRun(s: State, acts: seq<Action>, t: State, past: seq<Action>)
    requires Run(s, acts, t) && StoppedBy(s.loop, past) && ShutdownKnown(s, past)
    ensures StoppedBy(t.loop, past + acts)
    decreases |acts|
  {
    hide Enabled, Apply, StoppedBy, ShutdownKnown;
    if acts == [] {
      assert past + acts == past;
    } else {
      StopStep(s, acts[0], past);
      StopRun(Apply(s, acts[0]), acts[1..], t, past + [acts[0]]);
      assert past + [acts[0]] + acts[1..] == past + acts;
    }
  }

  /** The loop only ends by `exit`, after a shutdown if it says so, or by the event it names. */
  lemma EndsForItsCause(i: State, acts: seq<Action>, s: State)
    requires Init(i) && Run(i, acts, s) && TearingDown(s.loop)
    ensures s.loop.cause.ExitAfterShutdown? ==> FromClient(ReadExit) in acts && InSetup(ShutdownProceeds) in acts
    ensures s.loop.cause.ExitEarly? ==> FromClient(ReadExit) in acts
    ensures !s.loop.cause.ExitAfterShutdown? && !s.loop.cause.ExitEarly? ==> FromClient(ReadEnd(s.loop.cause)) in acts
  {
    StopRun(i, acts, s, []);
    assert [] + acts == acts;
    hide Run;
  }

  /**
    Over every run that ends: it ends Ok exactly when what stopped the loop was
    an `exit` after an accepted shutdown, a clean end of the stream, or the signal.
   */
  lemma EndsOkExactly(i: State, acts: seq<Action>, s: State)
    requires Init(i) && Run(i, acts, s) && s.loop.Over?
    ensures Verdict(false, acts).Some?
    ensures EndsOk(s.loop.cause) <==> Verdict(false, acts).value in {ExitAfterShutdown, CleanEof, Signal}
  {
    EndingFollowsInput(i, acts, s);
    hide Run, Verdict;
  }
}
