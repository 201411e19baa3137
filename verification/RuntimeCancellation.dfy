/**
  What an answer says about its request (src/server.rs:547-551, 741-759): it
  carries the request's id, a cancellation means the token was tripped first,
  and everything the teardown drains is tripped and aborted.
 */
module RuntimeCancellation {
  import opened Runtime
  import M = RuntimeMutex
  import F = RuntimeFrames

  predicate Owns(requests: seq<Request>, owner: nat, id: Id) {
    owner < |requests| && requests[owner].id == id
  }

  predicate Stopped(requests: seq<Request>, owner: nat) {
    owner < |requests| && requests[owner].tripped && requests[owner].aborted
  }

  ghost predicate ClaimsMatch(s: State) {
    forall u :: 0 <= u < |s.requests| && s.requests[u].pc.Claimed? ==>
      Owns(s.requests, s.requests[u].pc.owner, s.requests[u].id)
  }

  ghost predicate AnswersMatch(s: State) {
    forall k :: 0 <= k < |s.answers| ==>
      && Owns(s.requests, s.answers[k].owner, s.answers[k].id)
      && (s.answers[k].reply.Cancelled? ==> Stopped(s.requests, s.answers[k].owner))
  }

  ghost predicate DrainedMatch(s: State) {
    && (s.drained != [] ==> TearingDown(s.loop))
    && forall k :: 0 <= k < |s.drained| ==>
      && Owns(s.requests, s.drained[k].owner, s.drained[k].id)
      && (Stopped(s.requests, s.drained[k].owner)
          || (s.loop.TearRemoved? && s.loop.r == s.drained[k].owner)
          || (s.loop.TearTripped? && s.loop.r == s.drained[k].owner))
  }

  ghost predicate Inv(s: State) {
    ClaimsMatch(s) && AnswersMatch(s) && DrainedMatch(s)
  }

  /** Owners keep their ids and their stops as time goes on. */
  lemma GrowingKeeps(s: State, t: State)
    requires F.Grows(s, t)
    ensures forall owner, id :: Owns(s.requests, owner, id) ==> Owns(t.requests, owner, id)
    ensures forall owner :: Stopped(s.requests, owner) ==> Stopped(t.requests, owner)
  {
  }

  /** A message read drains nothing, moves no task, and is answered at most with a refusal of its own. */
  lemma InputAnswers(s: State, a: InputStep)
    requires CanInput(s, a)
    ensures var t := Input(s, a);
      && t.drained == s.drained && s.requests <= t.requests && !TearingDown(s.loop)
      && (forall u :: |s.requests| <= u < |t.requests| ==> t.requests[u].pc.Unspawned?)
      && (t.answers == s.answers
          || (|t.answers| == |s.answers| + 1 && t.answers[..|s.answers|] == s.answers
              && var last := t.answers[|s.answers|]; Owns(t.requests, last.owner, last.id) && !last.reply.Cancelled?))
  {
  }

  lemma InputKeeps(s: State, a: InputStep)
    requires CanInput(s, a) && Inv(s)
    ensures Inv(Input(s, a))
  {
    hide F.Grows, Input;
    F.InputGrows(s, a);
    GrowingKeeps(s, Input(s, a));
    InputAnswers(s, a);
  }

  lemma SetupKeeps(s: State, a: SetupStep)
    requires CanSetup(s, a) && Inv(s)
    ensures Inv(Setup(s, a))
  {
  }

  lemma SpawnKeeps(s: State, a: SpawnStep)
    requires CanSpawn(s, a) && Inv(s)
    ensures Inv(Spawn(s, a))
  {
    F.SpawnGrows(s, a);
    GrowingKeeps(s, Spawn(s, a));
    hide F.Grows;
  }

  lemma CancelKeeps(s: State, a: CancelStep)
    requires M.Inv(s) && CanCancel(s, a) && Inv(s)
    ensures Inv(Cancel(s, a))
  {
    F.CancelGrows(s, a);
    GrowingKeeps(s, Cancel(s, a));
    CancelledIsStopped(s, a);
    hide F.Grows, M.Inv;
  }

  lemma CancelledIsStopped(s: State, a: CancelStep)
    requires M.Inv(s) && CanCancel(s, a)
    ensures a.AnswerCancelled? ==> Stopped(s.requests, s.loop.r) && Owns(s.requests, s.loop.r, s.loop.id)
  {
    hide M.Exclusive, M.MapSound;
    if a.AnswerCancelled? {
      assert M.TokenFirst(s.requests[s.loop.r]);
    }
  }

  lemma TearKeeps(s: State, a: TearStep)
    requires M.Inv(s) && CanTear(s, a) && Inv(s)
    ensures Inv(Tear(s, a))
  {
    F.TearGrows(s, a);
    GrowingKeeps(s, Tear(s, a));
    hide F.Grows, M.Exclusive, M.TokensFirst;
  }

  lemma TaskKeeps(s: State, u: nat, a: TaskStep)
    requires M.Inv(s) && CanTask(s, u, a) && Inv(s)
    ensures Inv(Task(s, u, a))
  {
    assert u < |s.requests|;
    hide F.Grows, Task, Stepped, CanTask, M.Inv;
    F.TaskGrows(s, u, a);
    GrowingKeeps(s, Task(s, u, a));
    F.TaskFrame(s, u, a);
    M.TaskFrame(s, u, a);
    M.StepFrame(s, u, a);
    ClaimMatches(s, u, a);
  }

  lemma ClaimMatches(s: State, u: nat, a: TaskStep)
    requires M.Inv(s) && CanTask(s, u, a) && Inv(s)
    ensures var p := Stepped(s, u, a); p.pc.Claimed? ==> Owns(s.requests, p.pc.owner, p.id)
    ensures a.Send? ==> s.requests[u].pc.Claimed?
  {
    hide M.Exclusive, M.LoopSound, M.TokensFirst;
  }

  lemma StepKeeps(s: State, a: Action)
    requires M.Inv(s) && Enabled(s, a) && Inv(s)
    ensures Inv(Apply(s, a))
  {
    hide Input, Setup, Spawn, Cancel, Tear, Work, Task;
    hide CanInput, CanSetup, CanSpawn, CanCancel, CanTear, CanWork, CanTask;
    hide M.Inv;
    match a
    case FromClient(b) => InputKeeps(s, b);
    case InSetup(b) => SetupKeeps(s, b);
    case InSpawn(b) => SpawnKeeps(s, b);
    case InCancel(b) => CancelKeeps(s, b);
    case InTeardown(b) => TearKeeps(s, b);
    case InWorker(b) =>
    case InTask(u, b) => TaskKeeps(s, u, b);
  }

  lemma {:induction false} RunKeeps(s: State, acts: seq<Action>, t: State)
    requires M.Inv(s) && Inv(s) && Run(s, acts, t)
    ensures Inv(t)
    decreases |acts|
  {
    hide M.Inv, Inv, Enabled, Apply;
    if acts != [] {
      M.StepKeeps(s, acts[0]);
      StepKeeps(s, acts[0]);
      RunKeeps(Apply(s, acts[0]), acts[1..], t);
    }
  }

  /**
    Over every run: an answer carries the id of the request it settles, a
    cancelled request's token is tripped and its task aborted before the answer,
    and so is every drained request's by the time the drain is over.
   */
  lemma AnswersTellTheTruth(s: State)
    requires Reachable(s)
    ensures forall k :: 0 <= k < |s.answers| ==>
      && s.answers[k].owner < |s.requests| && s.requests[s.answers[k].owner].id == s.answers[k].id
      && (s.answers[k].reply.Cancelled? ==> Stopped(s.requests, s.answers[k].owner))
    ensures s.drained != [] ==> TearingDown(s.loop)
    ensures !s.loop.TearRemoved? && !s.loop.TearTripped? ==>
      forall k :: 0 <= k < |s.drained| ==> Stopped(s.requests, s.drained[k].owner)
  {
    hide M.Inv, Run;
    var i, acts :| Init(i) && Run(i, acts, s);
    M.InitInv(i);
    RunKeeps(i, acts, s);
  }
}
