/**
  Which steps answer, and how (src/server.rs:475-537, 616-626, 739-759): the
  outcome of initialize and shutdown is reported as it was, a cancellation that
  finds its request answers it, and a request is only refused as a duplicate
  while another one holds its id.
 */
module RuntimeReplies {
  import opened Runtime
  import M = RuntimeMutex
  import F = RuntimeFrames
  import D = Documents

  // ----- one answer for every answering step

  /** The steps outside the tasks that answer whatever the state, and the reply each gives. */
  predicate Gives(a: Action, reply: Reply) {
    || (a == InSetup(InitializeEnds(true)) && reply == InitializeOk)
    || (a == InSetup(InitializeEnds(false)) && reply == InitializeFailed)
    || (a == InSetup(ShutdownEnds(true)) && reply == ShutdownOk)
    || (a == InSetup(ShutdownEnds(false)) && reply == ShutdownFailed)
    || (a == InSpawn(SendRefusal) && reply == RefusedDuplicate)
    || (a == InCancel(AnswerCancelled) && reply == Reply.Cancelled)
  }

  /** How often `reply` has been given. */
  function Given(answers: seq<Answer>, reply: Reply): nat {
    if answers == [] then 0
    else Given(answers[..|answers| - 1], reply) + (if answers[|answers| - 1].reply == reply then 1 else 0)
  }

  lemma OneMore(answers: seq<Answer>, x: Answer, reply: Reply)
    ensures Given(answers + [x], reply) == Given(answers, reply) + (if x.reply == reply then 1 else 0)
  {
    assert (answers + [x])[..|answers|] == answers;
  }

  /** Nothing, or one answer more, with the reply the step gives if it gives one. */
  ghost predicate AnswersBy(s: State, a: Action, t: State) {
    || (t.answers == s.answers && !exists reply :: Gives(a, reply))
    || (|t.answers| == |s.answers| + 1 && t.answers[..|s.answers|] == s.answers && AnsweredBy(a, t.answers[|s.answers|].reply))
  }

  predicate AnsweredBy(a: Action, reply: Reply) {
    match reply
    case InitializeOk => Gives(a, reply)
    case InitializeFailed => Gives(a, reply)
    case ShutdownOk => Gives(a, reply)
    case ShutdownFailed => Gives(a, reply)
    case RefusedDuplicate => Gives(a, reply)
    case Cancelled => Gives(a, reply)
    case Handler(u, _) => a == InTask(u, Send)
    case _ => a.FromClient? && a.input.ReadRequest?
  }

  lemma InputAnswers(s: State, a: InputStep)
    requires CanInput(s, a)
    ensures AnswersBy(s, FromClient(a), Input(s, a))
  {
  }

  lemma SetupAnswers(s: State, a: SetupStep)
    requires CanSetup(s, a)
    ensures AnswersBy(s, InSetup(a), Setup(s, a))
  {
  }

  lemma SpawnAnswers(s: State, a: SpawnStep)
    requires CanSpawn(s, a)
    ensures AnswersBy(s, InSpawn(a), Spawn(s, a))
  {
  }

  lemma CancelAnswers(s: State, a: CancelStep)
    requires CanCancel(s, a)
    ensures AnswersBy(s, InCancel(a), Cancel(s, a))
  {
  }

  lemma TearAnswers(s: State, a: TearStep)
    requires CanTear(s, a)
    ensures AnswersBy(s, InTeardown(a), Tear(s, a))
  {
  }

  lemma TaskAnswers(s: State, u: nat, a: TaskStep)
    requires CanTask(s, u, a)
    ensures AnswersBy(s, InTask(u, a), Task(s, u, a))
  {
    F.TaskFrame(s, u, a);
    hide Task, CanTask, Stepped;
  }

  lemma StepAnswers(s: State, a: Action)
    requires Enabled(s, a)
    ensures AnswersBy(s, a, Apply(s, a))
  {
    hide Input, Setup, Spawn, Cancel, Tear, Work, Task, AnsweredBy;
    hide CanInput, CanSetup, CanSpawn, CanCancel, CanTear, CanWork, CanTask;
    match a
    case FromClient(b) => InputAnswers(s, b);
    case InSetup(b) => SetupAnswers(s, b);
    case InSpawn(b) => SpawnAnswers(s, b);
    case InCancel(b) => CancelAnswers(s, b);
    case InTeardown(b) => TearAnswers(s, b);
    case InWorker(b) =>
    case InTask(u, b) => TaskAnswers(s, u, b);
  }

  lemma StepGives(s: State, a: Action, b: Action, reply: Reply)
    requires Enabled(s, a) && Gives(b, reply)
    ensures Given(Apply(s, a).answers, reply) == Given(s.answers, reply) + (if a == b then 1 else 0)
  {
    hide Apply, Enabled, Given;
    StepAnswers(s, a);
    var t := Apply(s, a);
    if t.answers != s.answers {
      OneMore(s.answers, t.answers[|s.answers|], reply);
      assert t.answers == s.answers + [t.answers[|s.answers|]];
    }
  }

  lemma {:induction false} RunGives(s: State, acts: seq<Action>, t: State, b: Action, reply: Reply)
    requires Run(s, acts, t) && Gives(b, reply)
    ensures Given(t.answers, reply) == Given(s.answers, reply) + multiset(acts)[b]
    decreases |acts|
  {
    hide Enabled, Apply, Gives, Given;
    if acts != [] {
      StepGives(s, acts[0], b, reply);
      RunGives(Apply(s, acts[0]), acts[1..], t, b, reply);
      assert acts == [acts[0]] + acts[1..];
    }
  }

  /**
    Over every run: each of these replies has been given exactly as often as the
    step it reports was taken, success as success and failure as failure.
   */
  lemma RepliesReportTheSteps(i: State, acts: seq<Action>, s: State)
    requires Init(i) && Run(i, acts, s)
    ensures Given(s.answers, InitializeOk) == multiset(acts)[InSetup(InitializeEnds(true))]
    ensures Given(s.answers, InitializeFailed) == multiset(acts)[InSetup(InitializeEnds(false))]
    ensures Given(s.answers, ShutdownOk) == multiset(acts)[InSetup(ShutdownEnds(true))]
    ensures Given(s.answers, ShutdownFailed) == multiset(acts)[InSetup(ShutdownEnds(false))]
    ensures Given(s.answers, RefusedDuplicate) == multiset(acts)[InSpawn(SendRefusal)]
    ensures Given(s.answers, Reply.Cancelled) == multiset(acts)[InCancel(AnswerCancelled)]
  {
    hide Run;
    RunGives(i, acts, s, InSetup(InitializeEnds(true)), InitializeOk);
    RunGives(i, acts, s, InSetup(InitializeEnds(false)), InitializeFailed);
    RunGives(i, acts, s, InSetup(ShutdownEnds(true)), ShutdownOk);
    RunGives(i, acts, s, InSetup(ShutdownEnds(false)), ShutdownFailed);
    RunGives(i, acts, s, InSpawn(SendRefusal), RefusedDuplicate);
    RunGives(i, acts, s, InCancel(AnswerCancelled), Reply.Cancelled);
  }

  // ----- refused only as a duplicate

  /** At some point of the run the loop held the mutex to spawn `r`, and the id was in flight. */
  ghost predicate WasTaken(s: State, acts: seq<Action>, r: nat, id: Id) {
    exists n: nat, mid :: n <= |acts| && Run(s, acts[..n], mid) && TakenAt(mid, r, id)
  }

  predicate TakenAt(mid: State, r: nat, id: Id) {
    mid.loop == SpawnHeld(r) && id in mid.inFlight
  }

  ghost predicate Justified(i: State, acts: seq<Action>, s: State) {
    && (s.loop.Refusing? && s.loop.r < |s.requests| ==> WasTaken(i, acts, s.loop.r, s.requests[s.loop.r].id))
    && (forall k :: 0 <= k < |s.answers| && s.answers[k].reply.RefusedDuplicate? ==>
          WasTaken(i, acts, s.answers[k].owner, s.answers[k].id))
  }

  lemma {:induction false} LastStep(s: State, acts: seq<Action>, t: State) returns (mid: State)
    requires Run(s, acts, t) && acts != []
    ensures var n := |acts| - 1;
      Run(s, acts[..n], mid) && Enabled(mid, acts[n]) && t == Apply(mid, acts[n])
    decreases |acts|
  {
    hide Enabled, Apply;
    if |acts| == 1 {
      mid := s;
      assert acts[1..] == [] && acts[..0] == [];
    } else {
      mid := LastStep(Apply(s, acts[0]), acts[1..], t);
      var n := |acts| - 1;
      assert acts[1..][..n - 1] == acts[..n][1..];
    }
  }

  lemma TakenLater(i: State, acts: seq<Action>, r: nat, id: Id)
    requires acts != [] && WasTaken(i, acts[..|acts| - 1], r, id)
    ensures WasTaken(i, acts, r, id)
  {
    hide Run;
    var was := acts[..|acts| - 1];
    var n: nat, mid :| n <= |was| && Run(i, was[..n], mid) && TakenAt(mid, r, id);
    assert acts[..n] == was[..n];
  }

  /** A step only begins to refuse where the id is in flight, and goes on with the same request. */
  predicate RefusesRightly(s: State, t: State) {
    t.loop.Refusing? ==>
      && t.loop.r < |t.requests|
      && (if s.loop.Refusing? then
            t.loop == s.loop && s.loop.r < |s.requests| && t.requests[t.loop.r].id == s.requests[s.loop.r].id
          else TakenAt(s, t.loop.r, t.requests[t.loop.r].id))
  }

  lemma SpawnRefuses(s: State, a: SpawnStep)
    requires CanSpawn(s, a)
    ensures RefusesRightly(s, Spawn(s, a))
    ensures a.SendRefusal? ==>
      && s.loop.Refusing? && s.loop.r < |s.requests|
      && Spawn(s, a).answers == s.answers + [Answer(s.requests[s.loop.r].id, s.loop.r, RefusedDuplicate)]
  {
  }

  lemma TaskRefuses(s: State, u: nat, a: TaskStep)
    requires M.Inv(s) && CanTask(s, u, a)
    ensures RefusesRightly(s, Task(s, u, a))
  {
    M.TaskFrame(s, u, a);
    M.StepFrame(s, u, a);
    hide Task, Stepped, CanTask, M.Exclusive, M.MapSound, M.TokensFirst;
  }

  lemma OthersRefuse(s: State, a: Action)
    requires M.Inv(s) && Enabled(s, a) && !a.InSpawn? && !a.InTask?
    ensures RefusesRightly(s, Apply(s, a))
  {
    hide M.Exclusive, M.MapSound, M.TokensFirst, Work, CanWork;
  }

  lemma StepRefuses(s: State, a: Action)
    requires M.Inv(s) && Enabled(s, a)
    ensures RefusesRightly(s, Apply(s, a))
  {
    hide Spawn, CanSpawn, Task, CanTask, RefusesRightly, M.Inv;
    match a
    case InSpawn(b) => SpawnRefuses(s, b);
    case InTask(u, b) => TaskRefuses(s, u, b);
    case _ => OthersRefuse(s, a);
  }

  lemma AnswersJustified(i: State, acts: seq<Action>, s: State, a: Action, t: State)
    requires AnswersBy(s, a, t) && Justified(i, acts, s)
    requires a == InSpawn(SendRefusal) ==>
      && s.loop.Refusing? && s.loop.r < |s.requests|
      && t.answers == s.answers + [Answer(s.requests[s.loop.r].id, s.loop.r, RefusedDuplicate)]
    ensures forall k :: 0 <= k < |t.answers| && t.answers[k].reply.RefusedDuplicate? ==>
      WasTaken(i, acts, t.answers[k].owner, t.answers[k].id)
  {
    hide WasTaken;
    forall k | 0 <= k < |t.answers| && t.answers[k].reply.RefusedDuplicate?
      ensures WasTaken(i, acts, t.answers[k].owner, t.answers[k].id)
    {
      if k < |s.answers| {
        assert t.answers[k] == s.answers[k];
      } else {
        assert AnsweredBy(a, RefusedDuplicate) && Gives(a, RefusedDuplicate);
      }
    }
  }

  lemma LoopJustified(i: State, acts: seq<Action>, s: State, t: State)
    requires RefusesRightly(s, t) && Justified(i, acts, s) && Run(i, acts, s)
    ensures t.loop.Refusing? && t.loop.r < |t.requests| ==> WasTaken(i, acts, t.loop.r, t.requests[t.loop.r].id)
  {
    hide Run;
    if t.loop.Refusing? && !s.loop.Refusing? {
      assert acts[..|acts|] == acts;
      assert TakenAt(s, t.loop.r, t.requests[t.loop.r].id);
    }
  }

  lemma {:induction false} RunJustified(i: State, acts: seq<Action>, s: State)
    requires Init(i) && Run(i, acts, s)
    ensures Justified(i, acts, s)
    decreases |acts|
  {
    if acts != [] {
      var n := |acts| - 1;
      var mid := LastStep(i, acts, s);
      hide Run, Enabled, Apply, WasTaken, AnswersBy, RefusesRightly;
      RunJustified(i, acts[..n], mid);
      StepAnswers(mid, acts[n]);
      if acts[n] == InSpawn(SendRefusal) {
        RefusalIsSent(mid);
      }
      AnswersJustified(i, acts[..n], mid, acts[n], s);
      M.InitInv(i);
      M.RunKeeps(i, acts[..n], mid);
      StepRefuses(mid, acts[n]);
      LoopJustified(i, acts[..n], mid, s);
      JustifiedLater(i, acts, s);
    }
  }

  lemma RefusalIsSent(s: State)
    requires Enabled(s, InSpawn(SendRefusal))
    ensures s.loop.Refusing? && s.loop.r < |s.requests|
    ensures Apply(s, InSpawn(SendRefusal)).answers
      == s.answers + [Answer(s.requests[s.loop.r].id, s.loop.r, RefusedDuplicate)]
  {
  }

  lemma JustifiedLater(i: State, acts: seq<Action>, s: State)
    requires acts != [] && Justified(i, acts[..|acts| - 1], s)
    ensures Justified(i, acts, s)
  {
    var was := acts[..|acts| - 1];
    hide WasTaken;
    if s.loop.Refusing? && s.loop.r < |s.requests| {
      TakenLater(i, acts, s.loop.r, s.requests[s.loop.r].id);
    }
    forall k | 0 <= k < |s.answers| && s.answers[k].reply.RefusedDuplicate?
      ensures WasTaken(i, acts, s.answers[k].owner, s.answers[k].id)
    {
      TakenLater(i, acts, s.answers[k].owner, s.answers[k].id);
    }
  }

  /**
    Over every run: a request refused as a duplicate found its id in flight when
    the loop, holding the map, came to spawn it.
   */
  lemma RefusedOnlyAsDuplicate(i: State, acts: seq<Action>, s: State, k: nat)
    requires Init(i) && Run(i, acts, s) && k < |s.answers| && s.answers[k].reply.RefusedDuplicate?
    ensures exists n: nat, mid ::
      n <= |acts| && Run(i, acts[..n], mid) && mid.loop == SpawnHeld(s.answers[k].owner) && s.answers[k].id in mid.inFlight
  {
    RunJustified(i, acts, s);
    hide Run;
    var n: nat, mid :| n <= |acts| && Run(i, acts[..n], mid) && TakenAt(mid, s.answers[k].owner, s.answers[k].id);
  }
}
