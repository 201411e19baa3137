/**
  Whose outcome an answer carries (src/server.rs:676-694, 739-759). An abort only
  lands at an await, so a cancelled handler in mid-poll can still reach its claim
  after its id is in flight again. Answers are the owner's own as long as no task
  is started while an earlier one under the same id is still before its claim.
 */
module RuntimeOwnAnswers {
  import opened Wrappers
  import opened Runtime
  import M = RuntimeMutex
  import F = RuntimeFrames
  import D = Documents
  import Text

  predicate SpawnedWith(q: Request, id: Id) {
    q.id == id && !q.pc.Unspawned?
  }

  /** No request spawned with this id was cancelled before a later one was spawned with it. */
  ghost predicate NoReuse(s: State, id: Id) {
    forall i, j :: 0 <= i < j < |s.requests| && SpawnedWith(s.requests[i], id) && SpawnedWith(s.requests[j], id) ==>
      !s.requests[i].tripped
  }

  /** Every claim and every handler's answer under this id is the request's own. */
  ghost predicate Own(s: State, id: Id) {
    && (forall u :: 0 <= u < |s.requests| && s.requests[u].id == id && s.requests[u].pc.Claimed? ==>
          s.requests[u].pc.owner == u)
    && (forall k :: 0 <= k < |s.answers| && s.answers[k].id == id && s.answers[k].reply.Handler? ==>
          s.answers[k].reply.task == s.answers[k].owner)
  }

  /** Of the requests spawned with this id, only the last can still be before its claim. */
  ghost predicate OneAtATime(s: State, id: Id) {
    forall i, j :: 0 <= i < j < |s.requests| && SpawnedWith(s.requests[i], id) && SpawnedWith(s.requests[j], id) ==>
      !M.BeforeRemoval(s.requests[i].pc)
  }

  predicate InHand(loop: Loop, i: nat) {
    || loop == Registering(i) || (loop.CancelRemoved? && loop.r == i) || (loop.TearRemoved? && loop.r == i)
  }

  /** Before its claim, an undisturbed request has its entry. */
  ghost predicate Entered(s: State, id: Id) {
    forall i :: 0 <= i < |s.requests| ==>
      (s.requests[i].id == id && M.BeforeRemoval(s.requests[i].pc) && !s.requests[i].tripped ==>
        M.InFlight(s, i) || InHand(s.loop, i))
  }

  /** No task with this id is still before its claim. */
  predicate Alone(s: State, id: Id) {
    forall i :: 0 <= i < |s.requests| ==> (s.requests[i].id == id ==> !M.BeforeRemoval(s.requests[i].pc))
  }

  /** If this step starts a task under `id`, it is the only one there before its claim. */
  predicate StartsAlone(s: State, a: Action, id: Id) {
    a == InSpawn(StartTask) && CanSpawn(s, StartTask) && s.requests[s.loop.r].id == id ==> Alone(s, id)
  }

  /** Every start of a task under `id` in the run is. */
  predicate SpawnsAlone(s: State, acts: seq<Action>, id: Id)
    decreases |acts|
  {
    acts != [] && Enabled(s, acts[0]) ==> StartsAlone(s, acts[0], id) && SpawnsAlone(Apply(s, acts[0]), acts[1..], id)
  }

  ghost predicate Safe(s: State, id: Id) {
    Own(s, id) && OneAtATime(s, id)
  }

  // ----- every step

  lemma InputKeepsOwn(s: State, a: InputStep, id: Id)
    requires M.Inv(s) && CanInput(s, a) && Own(s, id)
    ensures Own(Input(s, a), id)
  {
    hide M.Inv;
  }

  lemma InputKeepsOrder(s: State, a: InputStep, id: Id)
    requires M.Inv(s) && CanInput(s, a) && OneAtATime(s, id)
    ensures OneAtATime(Input(s, a), id)
  {
    hide M.Inv;
  }

  lemma InputKeepsEntries(s: State, a: InputStep, id: Id)
    requires M.Inv(s) && CanInput(s, a) && Entered(s, id)
    ensures Entered(Input(s, a), id)
  {
    hide M.Exclusive, M.TokensFirst;
  }

  lemma SetupKeeps(s: State, a: SetupStep, id: Id)
    requires CanSetup(s, a)
    ensures Safe(s, id) ==> Safe(Setup(s, a), id)
    ensures Entered(s, id) ==> Entered(Setup(s, a), id)
  {
  }

  lemma SpawnKeepsOwn(s: State, a: SpawnStep, id: Id)
    requires M.Inv(s) && CanSpawn(s, a) && Own(s, id)
    ensures Own(Spawn(s, a), id)
  {
    hide M.Inv;
  }

  lemma SpawnKeepsOrder(s: State, a: SpawnStep, id: Id)
    requires M.Inv(s) && CanSpawn(s, a) && OneAtATime(s, id) && StartsAlone(s, InSpawn(a), id)
    ensures OneAtATime(Spawn(s, a), id)
  {
    hide M.MapSound;
  }

  lemma SpawnKeepsEntries(s: State, a: SpawnStep, id: Id)
    requires M.Inv(s) && CanSpawn(s, a) && Entered(s, id)
    ensures Entered(Spawn(s, a), id)
  {
    hide M.Exclusive, M.TokensFirst, M.MapSound;
  }

  lemma CancelKeepsOwn(s: State, a: CancelStep, id: Id)
    requires M.Inv(s) && CanCancel(s, a) && Own(s, id)
    ensures Own(Cancel(s, a), id)
  {
    hide M.Inv;
  }

  lemma CancelKeepsOrder(s: State, a: CancelStep, id: Id)
    requires M.Inv(s) && CanCancel(s, a) && OneAtATime(s, id)
    ensures OneAtATime(Cancel(s, a), id)
  {
    hide M.Inv;
  }

  lemma CancelKeepsEntries(s: State, a: CancelStep, id: Id)
    requires M.Inv(s) && CanCancel(s, a) && Entered(s, id)
    ensures Entered(Cancel(s, a), id)
  {
    hide M.Exclusive, M.TokensFirst, M.MapSound;
  }

  lemma TearKeepsOwn(s: State, a: TearStep, id: Id)
    requires M.Inv(s) && CanTear(s, a) && Own(s, id)
    ensures Own(Tear(s, a), id)
  {
    hide M.Inv;
  }

  lemma TearKeepsOrder(s: State, a: TearStep, id: Id)
    requires M.Inv(s) && CanTear(s, a) && OneAtATime(s, id)
    ensures OneAtATime(Tear(s, a), id)
  {
    hide M.Inv;
  }

  lemma TearKeepsEntries(s: State, a: TearStep, id: Id)
    requires M.Inv(s) && CanTear(s, a) && Entered(s, id)
    ensures Entered(Tear(s, a), id)
  {
    hide M.Exclusive, M.TokensFirst, M.MapSound;
  }

  lemma TaskKeepsOwn(s: State, u: nat, a: TaskStep, id: Id)
    requires M.Inv(s) && CanTask(s, u, a) && Own(s, id) && OneAtATime(s, id)
    ensures Own(Task(s, u, a), id)
  {
    F.TaskFrame(s, u, a);
    if s.requests[u].id == id {
      ClaimsItsOwn(s, u, a, id);
    }
    M.StepFrame(s, u, a);
    hide Task, Stepped, CanTask, M.Inv, OneAtATime, M.BeforeRemoval;
  }

  /** A claim under a watched id takes the task's own entry, and a send reports its own claim. */
  lemma ClaimsItsOwn(s: State, u: nat, a: TaskStep, id: Id)
    requires M.Inv(s) && CanTask(s, u, a) && Own(s, id) && OneAtATime(s, id) && s.requests[u].id == id
    ensures Stepped(s, u, a).pc.Claimed? ==> Stepped(s, u, a).pc.owner == u
    ensures a.Send? ==> s.requests[u].pc.Claimed? && s.requests[u].pc.owner == u
  {
    if a.RemoveEntry? && id in s.inFlight {
      EntryIsOwn(s, u, id);
    }
    hide M.Inv, OneAtATime, WaitOver;
  }

  lemma EntryIsOwn(s: State, u: nat, id: Id)
    requires M.Inv(s) && OneAtATime(s, id) && id in s.inFlight
    requires u < |s.requests| && s.requests[u].id == id && s.requests[u].pc.Claiming?
    ensures s.inFlight[id] == u
  {
    hide M.Exclusive, M.LoopSound, M.TokensFirst;
    var v := s.inFlight[id];
    assert SpawnedWith(s.requests[u], id) && SpawnedWith(s.requests[v], id);
  }

  lemma TaskKeepsOrder(s: State, u: nat, a: TaskStep, id: Id)
    requires CanTask(s, u, a) && OneAtATime(s, id)
    ensures OneAtATime(Task(s, u, a), id)
  {
    M.TaskFrame(s, u, a);
    M.StepFrame(s, u, a);
    hide Task, Stepped, CanTask;
  }

  lemma TaskKeepsEntries(s: State, u: nat, a: TaskStep, id: Id)
    requires M.Inv(s) && CanTask(s, u, a) && OneAtATime(s, id) && Entered(s, id)
    ensures Entered(Task(s, u, a), id)
  {
    M.TaskFrame(s, u, a);
    M.StepFrame(s, u, a);
    hide Task, Stepped, CanTask, M.LoopSound, M.TokensFirst, M.Exclusive;
  }

  lemma StepKeeps(s: State, a: Action, id: Id)
    requires M.Inv(s) && Enabled(s, a) && Safe(s, id) && StartsAlone(s, a, id)
    ensures Safe(Apply(s, a), id)
  {
    hide M.Inv, Own, OneAtATime, StartsAlone;
    hide Input, Setup, Spawn, Cancel, Tear, Work, Task;
    hide CanInput, CanSetup, CanSpawn, CanCancel, CanTear, CanWork, CanTask;
    match a
    case FromClient(b) =>
      InputKeepsOwn(s, b, id);
      InputKeepsOrder(s, b, id);
    case InSetup(b) => SetupKeeps(s, b, id);
    case InSpawn(b) =>
      SpawnKeepsOwn(s, b, id);
      SpawnKeepsOrder(s, b, id);
    case InCancel(b) =>
      CancelKeepsOwn(s, b, id);
      CancelKeepsOrder(s, b, id);
    case InTeardown(b) =>
      TearKeepsOwn(s, b, id);
      TearKeepsOrder(s, b, id);
    case InWorker(b) => WorkerKeeps(s, b, id);
    case InTask(u, b) =>
      TaskKeepsOwn(s, u, b, id);
      TaskKeepsOrder(s, u, b, id);
  }

  lemma WorkerKeeps(s: State, a: WorkerStep, id: Id)
    requires Enabled(s, InWorker(a))
    ensures Safe(s, id) ==> Safe(Apply(s, InWorker(a)), id)
    ensures Entered(s, id) ==> Entered(Apply(s, InWorker(a)), id)
  {
    hide Work, CanWork;
  }

  lemma {:induction false} RunKeeps(s: State, acts: seq<Action>, t: State, id: Id)
    requires M.Inv(s) && Safe(s, id) && Run(s, acts, t) && SpawnsAlone(s, acts, id)
    ensures Safe(t, id)
    decreases |acts|
  {
    hide M.Inv, Safe, Enabled, Apply, StartsAlone;
    if acts != [] {
      M.StepKeeps(s, acts[0]);
      StepKeeps(s, acts[0], id);
      RunKeeps(Apply(s, acts[0]), acts[1..], t, id);
    }
  }

  // ----- a client that never reuses a cancelled id starts every task alone

  lemma EntriesStep(s: State, a: Action, id: Id)
    requires M.Inv(s) && Enabled(s, a) && Safe(s, id) && Entered(s, id)
    ensures Entered(Apply(s, a), id)
  {
    hide M.Inv, Own, OneAtATime, Entered;
    hide Input, Setup, Spawn, Cancel, Tear, Work, Task;
    hide CanInput, CanSetup, CanSpawn, CanCancel, CanTear, CanWork, CanTask;
    match a
    case FromClient(b) => InputKeepsEntries(s, b, id);
    case InSetup(b) => SetupKeeps(s, b, id);
    case InSpawn(b) => SpawnKeepsEntries(s, b, id);
    case InCancel(b) => CancelKeepsEntries(s, b, id);
    case InTeardown(b) => TearKeepsEntries(s, b, id);
    case InWorker(b) => WorkerKeeps(s, b, id);
    case InTask(u, b) => TaskKeepsEntries(s, u, b, id);
  }

  /** A task before its claim is in the map unless it was cancelled, and its id is free when another is started. */
  lemma NotReusedIsAlone(s: State, a: Action, id: Id)
    requires Enabled(s, a) && Entered(s, id) && NoReuse(Apply(s, a), id) && M.Inv(s)
    ensures StartsAlone(s, a, id)
  {
    if a == InSpawn(StartTask) && s.requests[s.loop.r].id == id {
      hide Entered, NoReuse, M.Inv, Enabled, Apply;
      forall i | 0 <= i < |s.requests| && s.requests[i].id == id ensures !M.BeforeRemoval(s.requests[i].pc) {
        if M.BeforeRemoval(s.requests[i].pc) {
          WaitsCancelled(s, i, id);
          SecondIsUncancelled(s, i, id);
        }
      }
    }
  }

  /** Where a task is about to be started under `id`, one still before its claim has lost its entry to a cancel. */
  lemma WaitsCancelled(s: State, i: nat, id: Id)
    requires M.Inv(s) && CanSpawn(s, StartTask) && s.requests[s.loop.r].id == id && Entered(s, id)
    requires i < |s.requests| && s.requests[i].id == id && M.BeforeRemoval(s.requests[i].pc)
    ensures i < s.loop.r && s.requests[i].tripped
  {
    hide M.Exclusive, M.TokensFirst;
  }

  /** A start that is no reuse finds the earlier tasks with its id uncancelled. */
  lemma SecondIsUncancelled(s: State, i: nat, id: Id)
    requires CanSpawn(s, StartTask) && s.requests[s.loop.r].id == id && NoReuse(Spawn(s, StartTask), id)
    requires i < s.loop.r && SpawnedWith(s.requests[i], id)
    ensures !s.requests[i].tripped
  {
    var t := Spawn(s, StartTask);
    assert SpawnedWith(t.requests[s.loop.r], id) && SpawnedWith(t.requests[i], id);
  }

  lemma NoReuseEarlier(s: State, acts: seq<Action>, t: State, id: Id)
    requires Run(s, acts, t) && NoReuse(t, id)
    ensures NoReuse(s, id)
  {
    F.RunGrows(s, acts, t);
    hide Run;
  }

  lemma {:induction false} NoReuseSpawnsAlone(s: State, acts: seq<Action>, t: State, id: Id)
    requires M.Inv(s) && Safe(s, id) && Entered(s, id) && Run(s, acts, t) && NoReuse(t, id)
    ensures SpawnsAlone(s, acts, id)
    decreases |acts|
  {
    hide M.Inv, Safe, Entered, NoReuse, Enabled, Apply, StartsAlone;
    if acts != [] {
      var next := Apply(s, acts[0]);
      NoReuseEarlier(next, acts[1..], t, id);
      NotReusedIsAlone(s, acts[0], id);
      M.StepKeeps(s, acts[0]);
      StepKeeps(s, acts[0], id);
      EntriesStep(s, acts[0], id);
      NoReuseSpawnsAlone(next, acts[1..], t, id);
    }
  }

  /** A client that uses no id again after cancelling it never starts two tasks at once under one id. */
  lemma NoReuseIsEnough(i: State, acts: seq<Action>, s: State, id: Id)
    requires Init(i) && Run(i, acts, s) && NoReuse(s, id)
    ensures SpawnsAlone(i, acts, id)
  {
    M.InitInv(i);
    NoReuseSpawnsAlone(i, acts, s, id);
  }

  // ----- where outcomes come from

  predicate Carries(q: Request, outcome: Outcome) {
    || q.pc == AtClaim(outcome) || q.pc == Claiming(outcome) || (q.pc.Claimed? && q.pc.outcome == outcome)
  }

  /** The outcome is on its way to an answer, or in one, in the name of task `u`. */
  ghost predicate Pending(s: State, u: nat, outcome: Outcome) {
    || (u < |s.requests| && Carries(s.requests[u], outcome))
    || (exists k :: 0 <= k < |s.answers| && s.answers[k].reply == Handler(u, outcome))
  }

  lemma OutcomeStep(s: State, a: Action, u: nat, outcome: Outcome)
    requires M.Inv(s) && Enabled(s, a) && Pending(Apply(s, a), u, outcome) && !Pending(s, u, outcome)
    ensures a == InTask(u, EndHandler(outcome))
  {
    if a.InTask? {
      F.TaskFrame(s, a.u, a.task);
      TaskOutcome(s, a.u, a.task, u, outcome);
    } else {
      LoopStart(s, a);
      F.LoopQuiet(s, a);
      QuietOutcome(s, Apply(s, a), u, outcome);
    }
    hide Apply, Enabled, Pending, Task, CanTask;
  }

  lemma QuietOutcome(s: State, t: State, u: nat, outcome: Outcome)
    requires F.Quiet(s, t) && Pending(t, u, outcome)
    ensures Pending(s, u, outcome)
  {
    if u < |t.requests| && Carries(t.requests[u], outcome) {
    } else {
      var k :| 0 <= k < |t.answers| && t.answers[k].reply == Handler(u, outcome);
      assert k < |s.answers| && s.answers[k] == t.answers[k];
    }
  }

  lemma LoopStart(s: State, a: Action)
    requires M.Inv(s) && Enabled(s, a)
    ensures a.InSpawn? ==> F.StartsUnspawned(s, a.spawn)
  {
    hide M.Exclusive, M.MapSound, M.TokensFirst;
  }

  lemma TaskOutcome(s: State, v: nat, a: TaskStep, u: nat, outcome: Outcome)
    requires CanTask(s, v, a) && Pending(Task(s, v, a), u, outcome) && !Pending(s, u, outcome)
    ensures v == u && a == EndHandler(outcome)
  {
    F.TaskFrame(s, v, a);
    hide Task, D.Step;
  }

  lemma {:induction false} OutcomesComeFromHandlers(s: State, acts: seq<Action>, t: State, u: nat, outcome: Outcome)
    requires M.Inv(s) && Run(s, acts, t) && Pending(t, u, outcome) && !Pending(s, u, outcome)
    ensures InTask(u, EndHandler(outcome)) in acts
    decreases |acts|
  {
    hide M.Inv, Enabled, Apply, Pending;
    if acts != [] {
      var next := Apply(s, acts[0]);
      M.StepKeeps(s, acts[0]);
      if Pending(next, u, outcome) {
        OutcomeStep(s, acts[0], u, outcome);
      } else {
        OutcomesComeFromHandlers(next, acts[1..], t, u, outcome);
      }
    }
  }

  /**
    Over every run: when every task under an id is started with no earlier one
    there still before its claim, every handler's answer under that id carries
    the outcome the request's own handler ended with.
   */
  lemma OwnAnswers(i: State, acts: seq<Action>, s: State, id: Id)
    requires Init(i) && Run(i, acts, s) && SpawnsAlone(i, acts, id)
    ensures forall k :: 0 <= k < |s.answers| && s.answers[k].id == id && s.answers[k].reply.Handler? ==>
      && s.answers[k].reply.task == s.answers[k].owner
      && InTask(s.answers[k].owner, EndHandler(s.answers[k].reply.outcome)) in acts
  {
    M.InitInv(i);
    RunKeeps(i, acts, s, id);
    hide Run, OneAtATime, SpawnsAlone;
    forall k | 0 <= k < |s.answers| && s.answers[k].id == id && s.answers[k].reply.Handler?
      ensures s.answers[k].reply.task == s.answers[k].owner
      ensures InTask(s.answers[k].owner, EndHandler(s.answers[k].reply.outcome)) in acts
    {
      var reply := s.answers[k].reply;
      assert Pending(s, reply.task, reply.outcome);
      OutcomesComeFromHandlers(i, acts, s, reply.task, reply.outcome);
    }
  }

  // ----- what reuse allows

  /** The four steps that take a running handler to its answer. */
  function FinishSteps(u: nat, outcome: Outcome): seq<Action> {
    [InTask(u, EndHandler(outcome)), InTask(u, LockForClaim), InTask(u, RemoveEntry), InTask(u, Send)]
  }

  function AfterFinish(s: State, u: nat, outcome: Outcome): State
    requires u < |s.requests| && s.requests[u].id in s.inFlight
  {
    var q := s.requests[u];
    s.(requests := s.requests[u := q.(pc := Closing)], inFlight := s.inFlight - {q.id},
       answers := s.answers + [Answer(q.id, s.inFlight[q.id], Handler(u, outcome))])
  }

  /**
    A handler that finishes undisturbed answers whichever request holds its id:
    its own if it still does, another one if the id came back.
   */
  lemma FinishAnswersTheHolder(s: State, u: nat, outcome: Outcome)
    requires CanTask(s, u, EndHandler(outcome)) && s.mutex.Free? && s.requests[u].id in s.inFlight
    ensures Run(s, FinishSteps(u, outcome), AfterFinish(s, u, outcome))
  {
    FinishStates(s, u, outcome);
    hide D.Step, Task, CanTask;
    var s1 := Task(s, u, EndHandler(outcome));
    var s2 := Task(s1, u, LockForClaim);
    var s3 := Task(s2, u, RemoveEntry);
    var t := Task(s3, u, Send);
    var acts := FinishSteps(u, outcome);
    RunOne(s3, InTask(u, Send));
    RunFirst(s2, InTask(u, RemoveEntry), acts[3..], t);
    RunFirst(s1, InTask(u, LockForClaim), acts[2..], t);
    RunFirst(s, InTask(u, EndHandler(outcome)), acts[1..], t);
    hide Run;
    assert [InTask(u, EndHandler(outcome))] + acts[1..] == acts;
  }

  lemma FinishStates(s: State, u: nat, outcome: Outcome)
    requires CanTask(s, u, EndHandler(outcome)) && s.mutex.Free? && s.requests[u].id in s.inFlight
    ensures var s1 := Task(s, u, EndHandler(outcome));
      && CanTask(s1, u, LockForClaim)
      && var s2 := Task(s1, u, LockForClaim);
      && CanTask(s2, u, RemoveEntry)
      && var s3 := Task(s2, u, RemoveEntry);
      CanTask(s3, u, Send) && Task(s3, u, Send) == AfterFinish(s, u, outcome)
  {
    hide D.Step;
    var s3 := Task(Task(Task(s, u, EndHandler(outcome)), u, LockForClaim), u, RemoveEntry);
    assert Task(s3, u, Send).requests == AfterFinish(s, u, outcome).requests;
  }

  function CancelSteps(id: Id): seq<Action> {
    [FromClient(ReadCancel(id)), InCancel(LockForCancel), InCancel(LookUp), InCancel(Trip), InCancel(Abort),
     InCancel(AnswerCancelled)]
  }

  function AfterCancel(s: State, u: nat): State
    requires u < |s.requests|
  {
    var q := s.requests[u];
    s.(inFlight := s.inFlight - {q.id}, requests := s.requests[u := q.(tripped := true, aborted := true)],
       answers := s.answers + [Answer(q.id, u, Cancelled)])
  }

  lemma CancelRun(s: State, u: nat)
    requires s.loop.Reading? && s.mutex.Free? && u < |s.requests| && M.InFlight(s, u)
    ensures Run(s, CancelSteps(s.requests[u].id), AfterCancel(s, u))
  {
    CancelStates(s, u);
    var id := s.requests[u].id;
    var s1 := Input(s, ReadCancel(id));
    assert CanCancel(s1, LockForCancel);
    hide Runtime.Cancel, CanCancel, Input;
    var s2 := Runtime.Cancel(s1, LockForCancel);
    var s3 := Runtime.Cancel(s2, LookUp);
    var s4 := Runtime.Cancel(s3, Trip);
    var s5 := Runtime.Cancel(s4, Abort);
    var t := AfterCancel(s, u);
    RunOne(s5, InCancel(AnswerCancelled));
    RunFirst(s4, InCancel(Abort), [InCancel(AnswerCancelled)], t);
    RunFirst(s3, InCancel(Trip), CancelSteps(id)[4..], t);
    RunFirst(s2, InCancel(LookUp), CancelSteps(id)[3..], t);
    RunFirst(s1, InCancel(LockForCancel), CancelSteps(id)[2..], t);
    RunFirst(s, FromClient(ReadCancel(id)), CancelSteps(id)[1..], t);
    hide Run;
    assert [FromClient(ReadCancel(id))] + CancelSteps(id)[1..] == CancelSteps(id);
  }

  lemma CancelStates(s: State, u: nat)
    requires s.loop.Reading? && s.mutex.Free? && u < |s.requests| && M.InFlight(s, u)
    ensures var s2 := Runtime.Cancel(Input(s, ReadCancel(s.requests[u].id)), LockForCancel);
      && CanCancel(s2, LookUp)
      && var s3 := Runtime.Cancel(s2, LookUp);
      && CanCancel(s3, Trip)
      && var s4 := Runtime.Cancel(s3, Trip);
      && CanCancel(s4, Abort)
      && var s5 := Runtime.Cancel(s4, Abort);
      CanCancel(s5, AnswerCancelled) && Runtime.Cancel(s5, AnswerCancelled) == AfterCancel(s, u)
  {
    var s2 := Runtime.Cancel(Input(s, ReadCancel(s.requests[u].id)), LockForCancel);
    var s5 := Runtime.Cancel(Runtime.Cancel(Runtime.Cancel(s2, LookUp), Trip), Abort);
    assert Runtime.Cancel(s5, AnswerCancelled).requests == AfterCancel(s, u).requests;
  }

  function SpawnSteps(id: Id, work: nat): seq<Action> {
    [FromClient(ReadRequest(id, Feature, work)), InSpawn(LockForSpawn), InSpawn(StartTask), InSpawn(Register)]
  }

  function AfterSpawn(s: State, id: Id, work: nat): State {
    s.(requests := s.requests + [Request(id, Feature, |s.notes.log|, true, false, work, Waiting, false, false, false)],
       inFlight := s.inFlight[id := |s.requests|])
  }

  lemma SpawnStates(s: State, id: Id, work: nat)
    requires s.loop.Reading? && s.mutex.Free? && s.initialized && !s.shutdownRequested && id !in s.inFlight
    ensures var s2 := Runtime.Spawn(Input(s, ReadRequest(id, Feature, work)), LockForSpawn);
      && CanSpawn(s2, StartTask) && CanSpawn(Runtime.Spawn(s2, StartTask), Register)
      && Runtime.Spawn(Runtime.Spawn(s2, StartTask), Register) == AfterSpawn(s, id, work)
  {
    var s2 := Runtime.Spawn(Input(s, ReadRequest(id, Feature, work)), LockForSpawn);
    assert Runtime.Spawn(Runtime.Spawn(s2, StartTask), Register).requests == AfterSpawn(s, id, work).requests;
  }

  lemma SpawnRun(s: State, id: Id, work: nat)
    requires s.loop.Reading? && s.mutex.Free? && s.initialized && !s.shutdownRequested && id !in s.inFlight
    ensures Run(s, SpawnSteps(id, work), AfterSpawn(s, id, work))
  {
    SpawnStates(s, id, work);
    var s1 := Input(s, ReadRequest(id, Feature, work));
    assert CanSpawn(s1, LockForSpawn);
    hide CanSpawn, Runtime.Spawn, Input;
    var s2 := Runtime.Spawn(s1, LockForSpawn);
    var s3 := Runtime.Spawn(s2, StartTask);
    var t := AfterSpawn(s, id, work);
    var acts := SpawnSteps(id, work);
    RunOne(s3, InSpawn(Register));
    RunFirst(s2, InSpawn(StartTask), [InSpawn(Register)], t);
    RunFirst(s1, InSpawn(LockForSpawn), acts[2..], t);
    RunFirst(s, FromClient(ReadRequest(id, Feature, work)), acts[1..], t);
    hide Run;
    assert [FromClient(ReadRequest(id, Feature, work))] + acts[1..] == acts;
  }

  /**
    The condition cannot be dropped. Whatever handler is running, if the client
    cancels its request and uses the id again before the abort lands, the new
    request can be answered with the old handler's outcome.
   */
  lemma ReuseStealsTheAnswer(s: State, u: nat, outcome: Outcome)
    requires s.loop.Reading? && s.mutex.Free? && s.initialized && !s.shutdownRequested
    requires CanTask(s, u, EndHandler(outcome)) && M.InFlight(s, u)
    ensures var id := s.requests[u].id;
      var t := AfterFinish(AfterSpawn(AfterCancel(s, u), id, 0), u, outcome);
      && Run(s, CancelSteps(id) + SpawnSteps(id, 0) + FinishSteps(u, outcome), t)
      && t.answers[|t.answers| - 1] == Answer(id, |s.requests|, Handler(u, outcome)) && u != |s.requests|
      && !Own(t, id)
  {
    var id := s.requests[u].id;
    var s1 := AfterCancel(s, u);
    var s2 := AfterSpawn(s1, id, 0);
    var t := AfterFinish(s2, u, outcome);
    CancelRun(s, u);
    SpawnRun(s1, id, 0);
    FinishAnswersTheHolder(s2, u, outcome);
    hide Run;
    RunConcat(s, CancelSteps(id), s1, SpawnSteps(id, 0), s2);
    RunConcat(s, CancelSteps(id) + SpawnSteps(id, 0), s2, FinishSteps(u, outcome), t);
    assert t.answers[|t.answers| - 1].reply.task != t.answers[|t.answers| - 1].owner;
  }

  lemma InitializedIsReachable(first: Id, cap: Option<nat>)
    ensures exists s :: Reachable(s) && s.cap == cap && Serving(s)
  {
    var i := State(cap, Text.Utf8, Reading, false, false, Notes([], [], Idle, false, [], map[], 0),
                   [], map[], Free, if cap.Some? then cap.value else 0, [], [], 0);
    var s1 := Input(i, ReadRequest(first, Initialize, 0));
    var s2 := Setup(s1, InitializeEnds(true));
    RunOne(s1, InSetup(InitializeEnds(true)));
    RunFirst(i, FromClient(ReadRequest(first, Initialize, 0)), [InSetup(InitializeEnds(true))], s2);
    hide Run;
    assert Init(i);
    assert Reachable(s2) && Serving(s2);
  }

  /** Initialized, idle, and with a permit to give. */
  predicate Serving(s: State) {
    && s.loop.Reading? && s.mutex.Free? && s.initialized && !s.shutdownRequested
    && s.inFlight == map[] && s.notes.log == [] && (s.cap.Some? ==> s.free == s.cap.value)
  }

  /** And handlers do run, unless the cap is zero. */
  lemma SomeHandlerRuns(first: Id, id: Id, cap: Option<nat>)
    requires cap != Some(0)
    ensures exists s :: Reachable(s) && s.cap == cap && Stealable(s, id)
  {
    InitializedIsReachable(first, cap);
    hide D.Step, Reachable, Run;
    var s2 :| Reachable(s2) && s2.cap == cap && Serving(s2);
    SpawnRun(s2, id, 0);
    var s3 := AfterSpawn(s2, id, 0);
    StaysReachable(s2, SpawnSteps(id, 0), s3);
    StartRun(s3, |s2.requests|);
    var s4 := Task(s3, |s2.requests|, Ready);
    var s5 := Task(s4, |s2.requests|, Acquire);
    StaysReachable(s3, [InTask(|s2.requests|, Ready), InTask(|s2.requests|, Acquire)], s5);
    assert Stealable(s5, id);
  }

  lemma StartRun(s: State, u: nat)
    requires CanTask(s, u, Ready) && (s.cap.Some? ==> s.free > 0)
    ensures var t := Task(s, u, Ready);
      CanTask(t, u, Acquire) && Run(s, [InTask(u, Ready), InTask(u, Acquire)], Task(t, u, Acquire))
  {
    hide D.Step;
    var t := Task(s, u, Ready);
    RunOne(t, InTask(u, Acquire));
    RunFirst(s, InTask(u, Ready), [InTask(u, Acquire)], Task(t, u, Acquire));
  }

  /** A running handler whose request is in flight, while the loop reads. */
  predicate Stealable(s: State, id: Id) {
    && s.loop.Reading? && s.mutex.Free? && s.initialized && !s.shutdownRequested
    && id in s.inFlight && s.inFlight[id] < |s.requests|
    && s.requests[s.inFlight[id]].pc.Running? && s.requests[s.inFlight[id]].id == id
  }
}
