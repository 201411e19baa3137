/**
  What reusing an id allows (src/server.rs:639-694, 739-759). Starting a task
  while an earlier one under its id is still before its claim always lets some
  run answer the new request with another handler's outcome. So starting it alone
  is exactly what keeps answers their own.
 */
module RuntimeReuse {
  import opened Wrappers
  import opened Runtime
  import M = RuntimeMutex
  import N = RuntimeNotes
  import O = RuntimeOwnAnswers
  import P = RuntimePermits
  import R = RuntimeProgress

  /** A request under this id has been answered with the outcome of another request's handler. */
  ghost predicate Stolen(s: State, id: Id) {
    exists k :: 0 <= k < |s.answers| && s.answers[k].id == id && ByAnother(s.answers[k])
  }

  predicate ByAnother(a: Answer) {
    a.reply.Handler? && a.reply.task != a.owner
  }

  lemma StolenIsNotOwn(s: State, id: Id)
    requires Stolen(s, id)
    ensures !O.Own(s, id)
  {
  }

  /** Task `i` is before its claim, and the entry of its id is that of request `r`, whose task still waits. */
  predicate Overlap(s: State, i: nat, r: nat, id: Id) {
    && s.loop.Reading? && i < |s.requests| && r < |s.requests|
    && s.requests[i].id == id && M.BeforeRemoval(s.requests[i].pc)
    && s.requests[r].pc.Waiting? && i != r
    && id in s.inFlight && s.inFlight[id] == r
  }

  lemma InvStep(s: State, a: Action)
    requires R.Inv(s) && Enabled(s, a)
    ensures R.Inv(Apply(s, a))
  {
    hide M.Inv, N.Inv, P.Inv, Enabled, Apply;
    M.StepKeeps(s, a);
    N.StepKeeps(s, a);
    P.StepKeeps(s, a);
    R.CapStep(s, a);
  }

  // ----- one step nearer

  lemma WorkerKeepsOverlap(s: State, a: Action, i: nat, r: nat, id: Id)
    requires Overlap(s, i, r, id) && Enabled(s, a) && a.InWorker?
    ensures Overlap(Apply(s, a), i, r, id)
  {
    hide Work, CanWork;
  }

  /** Only a claim, a drop or the waiting task itself could end the overlap. */
  lemma TaskKeepsOverlap(s: State, v: nat, a: TaskStep, i: nat, r: nat, id: Id)
    requires Overlap(s, i, r, id) && CanTask(s, v, a) && v != r && !a.Drop?
    requires a.RemoveEntry? ==> s.requests[v].id != id
    ensures Overlap(Task(s, v, a), i, r, id)
  {
    M.TaskFrame(s, v, a);
    M.StepFrame(s, v, a);
    hide Task, Stepped, CanTask;
  }

  /** A claim under the id takes the entry of the waiting request, and the answer that follows is its. */
  function ThiefSteps(v: nat): seq<Action> {
    [InTask(v, RemoveEntry), InTask(v, Send)]
  }

  lemma ClaimSteals(s: State, v: nat, i: nat, r: nat, id: Id) returns (t: State)
    requires Overlap(s, i, r, id) && CanTask(s, v, RemoveEntry) && s.requests[v].id == id
    ensures Run(s, ThiefSteps(v), t) && Stolen(t, id)
  {
    hide WaitOver;
    var t1 := Task(s, v, RemoveEntry);
    assert CanTask(t1, v, Send);
    t := Task(t1, v, Send);
    RunOne(t1, InTask(v, Send));
    RunFirst(s, InTask(v, RemoveEntry), [InTask(v, Send)], t);
    SentIsStolen(s, v, r, t);
    assert [InTask(v, RemoveEntry)] + [InTask(v, Send)] == ThiefSteps(v);
  }

  lemma SentIsStolen(s: State, v: nat, r: nat, t: State)
    requires CanTask(s, v, RemoveEntry) && s.requests[v].id in s.inFlight && v != r
    requires s.inFlight[s.requests[v].id] == r
    requires CanTask(Task(s, v, RemoveEntry), v, Send) && t == Task(Task(s, v, RemoveEntry), v, Send)
    ensures Stolen(t, s.requests[v].id)
  {
    var last := t.answers[|t.answers| - 1];
    assert last.id == s.requests[v].id && ByAnother(last);
  }

  /** With the mutex free and the worker at rest, the overlapping task moves, or a holder on the way to giving back its permit. */
  lemma OverlapCan(s: State, i: nat, r: nat, id: Id) returns (a: Action)
    requires R.Inv(s) && R.Resting(s) && s.mutex.Free? && Overlap(s, i, r, id)
    ensures a.InTask? && a.u != r && !a.task.RemoveEntry? && !a.task.Drop? && Enabled(s, a)
  {
    hide M.Inv, N.Inv;
    match s.requests[i].pc {
      case Waiting =>
        R.WaitsAreOver(s, i);
        a := InTask(i, Ready);
      case Queued =>
        if s.cap.None? || s.free > 0 {
          a := InTask(i, Acquire);
        } else {
          var v := R.SomeHolder(s.requests);
          assert P.PermitFits(s.requests[v], true);
          a := R.HolderCan(s, v);
        }
      case Claiming(_) =>
        NotClaiming(s, i);
      case _ => a := R.HolderCan(s, i);
    }
  }

  lemma NotClaiming(s: State, i: nat)
    requires M.Inv(s) && s.mutex.Free? && i < |s.requests|
    ensures !s.requests[i].pc.Claiming?
  {
    hide M.LoopSound, M.MapSound, M.TokensFirst;
  }

  /** While two tasks overlap, some run without input ends with a stolen answer. */
  lemma {:induction false} OverlapSteals(s: State, i: nat, r: nat, id: Id) returns (acts: seq<Action>, t: State)
    requires R.Inv(s) && Overlap(s, i, r, id)
    ensures Run(s, acts, t) && R.Internal(acts) && Stolen(t, id)
    decreases R.Measure(s)
  {
    hide R.Inv, Enabled, Apply, Overlap, Stolen, R.Measure, Run;
    if AboutToClaim(s, id) {
      acts := ThiefSteps(s.mutex.task);
      t := ClaimSteals(s, s.mutex.task, i, r, id);
    } else {
      var a := NextStep(s, i, r, id);
      M.StepKeeps(s, a) by { InvParts(s); }
      InvStep(s, a);
      R.StepFalls(s, a) by { InvParts(s); }
      var later;
      later, t := OverlapSteals(Apply(s, a), i, r, id);
      acts := [a] + later;
      RunFirst(s, a, later, t);
    }
  }

  lemma InvParts(s: State)
    requires R.Inv(s)
    ensures M.Inv(s) && N.Inv(s) && P.Inv(s)
  {
  }

  /** The task inside the mutex is about to claim under this id. */
  predicate AboutToClaim(s: State, id: Id) {
    s.mutex.TaskHas? && CanTask(s, s.mutex.task, RemoveEntry) && s.requests[s.mutex.task].id == id
  }

  lemma NextStep(s: State, i: nat, r: nat, id: Id) returns (a: Action)
    requires R.Inv(s) && Overlap(s, i, r, id) && !AboutToClaim(s, id)
    ensures Enabled(s, a) && !a.FromClient? && Overlap(Apply(s, a), i, r, id)
  {
    InvParts(s);
    ReadingUnlocked(s);
    hide M.Inv, N.Inv, P.Inv;
    if !R.Resting(s) {
      a := R.WorkerCan(s);
      WorkerKeepsOverlap(s, a, i, r, id);
    } else if s.mutex.TaskHas? {
      var v := s.mutex.task;
      R.TaskWithMutexCan(s);
      a := InTask(v, RemoveEntry);
      TaskKeepsOverlap(s, v, RemoveEntry, i, r, id);
    } else {
      a := OverlapCan(s, i, r, id);
      TaskKeepsOverlap(s, a.u, a.task, i, r, id);
    }
  }

  lemma ReadingUnlocked(s: State)
    requires M.Inv(s) && s.loop.Reading?
    ensures !s.mutex.LoopHas?
  {
    hide M.LoopSound, M.MapSound, M.TokensFirst;
  }

  // ----- starting a task while another is before its claim

  lemma AfterStart(s: State, i: nat)
    requires M.Inv(s) && CanSpawn(s, StartTask) && i < |s.requests| && M.BeforeRemoval(s.requests[i].pc)
    requires s.requests[i].id == s.requests[s.loop.r].id
    ensures var s1 := Spawn(s, StartTask);
      CanSpawn(s1, Register) && Overlap(Spawn(s1, Register), i, s.loop.r, s.requests[i].id)
  {
    hide M.Exclusive, M.MapSound, M.TokensFirst;
  }

  const START := [InSpawn(StartTask), InSpawn(Register)]

  lemma StartRun(s: State)
    requires CanSpawn(s, StartTask) && CanSpawn(Spawn(s, StartTask), Register)
    ensures Run(s, START, Spawn(Spawn(s, StartTask), Register))
  {
    var s1 := Spawn(s, StartTask);
    RunOne(s1, InSpawn(Register));
    RunFirst(s, InSpawn(StartTask), [InSpawn(Register)], Spawn(s1, Register));
    hide Run;
    assert [InSpawn(StartTask)] + [InSpawn(Register)] == START;
  }

  /**
    Whatever the state: starting a task while one is still before its claim under
    the same id, waiting, queued, running or at its claim, lets some run without
    further input answer the new request with another handler's outcome.
   */
  lemma StartSteals(s: State, i: nat) returns (acts: seq<Action>, t: State)
    requires Reachable(s) && s.cap != Some(0) && CanSpawn(s, StartTask)
    requires i < |s.requests| && s.requests[i].id == s.requests[s.loop.r].id && M.BeforeRemoval(s.requests[i].pc)
    ensures Run(s, START + acts, t) && R.Internal(START + acts) && Stolen(t, s.requests[i].id)
  {
    R.ReachableInv(s);
    AfterStart(s, i);
    StartRun(s);
    var s1, r, id := Spawn(s, StartTask), s.loop.r, s.requests[i].id;
    var s2 := Spawn(s1, Register);
    assert R.Inv(s2) by {
      InvStep(s, InSpawn(StartTask));
      InvStep(s1, InSpawn(Register));
    }
    hide R.Inv, Run, Stolen, Overlap, Spawn, CanSpawn;
    acts, t := OverlapSteals(s2, i, r, id);
    RunConcat(s, START, s2, acts, t);
  }

  // ----- the client's side

  /** The loop is about to start a task for a request that has just been read. */
  function ReadAndLocked(s: State, id: Id, work: nat): State
    requires s.loop.Reading? && s.mutex.Free? && s.initialized && !s.shutdownRequested
  {
    Spawn(Input(s, ReadRequest(id, Feature, work)), LockForSpawn)
  }

  function ReadSteps(id: Id, work: nat): seq<Action> {
    [FromClient(ReadRequest(id, Feature, work)), InSpawn(LockForSpawn)]
  }

  lemma ReadRun(s: State, id: Id, work: nat)
    requires s.loop.Reading? && s.mutex.Free? && s.initialized && !s.shutdownRequested && id !in s.inFlight
    ensures var t := ReadAndLocked(s, id, work);
      && Run(s, ReadSteps(id, work), t) && CanSpawn(t, StartTask) && t.loop.r == |s.requests|
      && t.cap == s.cap && |t.requests| == |s.requests| + 1 && t.requests[|s.requests|].id == id
      && t.requests[..|s.requests|] == s.requests
  {
    var s1 := Input(s, ReadRequest(id, Feature, work));
    RunOne(s1, InSpawn(LockForSpawn));
    RunFirst(s, FromClient(ReadRequest(id, Feature, work)), [InSpawn(LockForSpawn)], ReadAndLocked(s, id, work));
    hide Run;
    assert [FromClient(ReadRequest(id, Feature, work))] + [InSpawn(LockForSpawn)] == ReadSteps(id, work);
  }

  /**
    So whatever the client does after it has cancelled a request, if it uses the
    id again while the cancelled task is still before its claim, wherever that
    stands, the new request can be answered with the old handler's outcome.
   */
  lemma ReuseCanSteal(s: State, i: nat, work: nat) returns (acts: seq<Action>, t: State)
    requires Reachable(s) && s.cap != Some(0)
    requires s.loop.Reading? && s.mutex.Free? && s.initialized && !s.shutdownRequested
    requires i < |s.requests| && s.requests[i].id !in s.inFlight && M.BeforeRemoval(s.requests[i].pc)
    ensures Run(s, ReadSteps(s.requests[i].id, work) + acts, t) && R.Internal(acts) && Stolen(t, s.requests[i].id)
  {
    var id := s.requests[i].id;
    ReadRun(s, id, work);
    var s2 := ReadAndLocked(s, id, work);
    assert s2.requests[i] == s2.requests[..|s.requests|][i] == s.requests[i];
    hide Reachable, Run, Stolen, ReadAndLocked, CanSpawn;
    StaysReachable(s, ReadSteps(id, work), s2);
    var more;
    more, t := StartSteals(s2, i);
    acts := START + more;
    RunConcat(s, ReadSteps(id, work), s2, acts, t);
  }

  // ----- and starting it alone does not

  predicate StartsNothing(loop: Loop) {
    loop.Reading? || loop.Registering?
  }

  lemma StillStartsNothing(s: State, a: Action, id: Id)
    requires StartsNothing(s.loop) && Enabled(s, a) && !a.FromClient?
    ensures O.StartsAlone(s, a, id) && StartsNothing(Apply(s, a).loop)
  {
    if a.InTask? {
      M.TaskFrame(s, a.u, a.task);
      hide Task;
    }
    hide CanTask, CanWork, Work;
  }

  lemma {:induction false} NothingIsStarted(s: State, acts: seq<Action>, t: State, id: Id)
    requires StartsNothing(s.loop) && Run(s, acts, t) && R.Internal(acts)
    ensures O.SpawnsAlone(s, acts, id)
    decreases |acts|
  {
    hide Enabled, Apply, O.StartsAlone, StartsNothing;
    if acts != [] {
      StillStartsNothing(s, acts[0], id);
      NothingIsStarted(Apply(s, acts[0]), acts[1..], t, id);
    }
  }

  /** However the tasks finish from here, no answer under this id is another handler's. */
  ghost predicate AlwaysOwn(s: State, id: Id) {
    forall acts, t :: Run(s, acts, t) && R.Internal(acts) ==> O.Own(t, id)
  }

  lemma AloneIsSafe(s: State, id: Id)
    requires M.Inv(s) && CanSpawn(s, StartTask) && s.requests[s.loop.r].id == id
    requires O.Safe(s, id) && O.Alone(s, id)
    ensures AlwaysOwn(Spawn(s, StartTask), id)
  {
    var a := InSpawn(StartTask);
    M.StepKeeps(s, a);
    O.StepKeeps(s, a, id);
    var s1 := Spawn(s, StartTask);
    assert StartsNothing(s1.loop);
    hide Run, M.Inv, O.Alone, StartsNothing, Spawn, CanSpawn;
    forall acts, t | Run(s1, acts, t) && R.Internal(acts) ensures O.Own(t, id) {
      NothingIsStarted(s1, acts, t, id);
      O.RunKeeps(s1, acts, t, id);
    }
  }

  /**
    Exactly when a task is started with none under its id still before its claim
    do all the runs that follow, without further input, keep that id's answers
    their owners' own.
   */
  lemma StartingAloneIsExact(s: State, id: Id)
    requires Reachable(s) && s.cap != Some(0) && CanSpawn(s, StartTask) && s.requests[s.loop.r].id == id
    requires O.Safe(s, id)
    ensures O.Alone(s, id) <==> AlwaysOwn(Spawn(s, StartTask), id)
  {
    if O.Alone(s, id) {
      M.ReachableSound(s);
      AloneIsSafe(s, id);
    } else {
      var i :| 0 <= i < |s.requests| && s.requests[i].id == id && M.BeforeRemoval(s.requests[i].pc);
      var acts, t := StartSteals(s, i);
      AfterFirst(s, acts, t);
      StolenIsNotOwn(t, id);
      hide Run, Spawn;
      assert R.Internal([InSpawn(Register)] + acts);
    }
  }

  lemma AfterFirst(s: State, acts: seq<Action>, t: State)
    requires Run(s, START + acts, t) && CanSpawn(s, StartTask) && R.Internal(START + acts)
    ensures Run(Spawn(s, StartTask), [InSpawn(Register)] + acts, t)
    ensures R.Internal([InSpawn(Register)] + acts)
  {
    hide Spawn, CanSpawn;
    assert (START + acts)[0] == InSpawn(StartTask);
    assert (START + acts)[1..] == [InSpawn(Register)] + acts;
  }

  // ----- over whole runs

  /** The run can be stopped at some point and then, without further input, come to a stolen answer. */
  ghost predicate CanGoWrong(s: State, acts: seq<Action>, id: Id) {
    exists k: nat, more, t :: k <= |acts| && R.Internal(more) && Run(s, acts[..k] + more, t) && Stolen(t, id)
  }

  /** Every run in which some task is not started alone could have gone wrong. */
  lemma {:induction false} UnsafeRunCanGoWrong(s: State, acts: seq<Action>, t: State, id: Id)
    requires Reachable(s) && s.cap != Some(0) && Run(s, acts, t) && !O.SpawnsAlone(s, acts, id)
    ensures CanGoWrong(s, acts, id)
    decreases |acts|
  {
    hide Reachable, Run, Stolen, Enabled, Apply;
    if O.StartsAlone(s, acts[0], id) {
      var next := Apply(s, acts[0]);
      NextReachable(s, acts, t);
      UnsafeRunCanGoWrong(next, acts[1..], t, id);
      GoesWrongLater(s, acts, t, id);
    } else {
      var i :| 0 <= i < |s.requests| && s.requests[i].id == id && M.BeforeRemoval(s.requests[i].pc);
      var more, u := StartSteals(s, i);
      assert acts[..0] + (START + more) == START + more;
    }
  }

  lemma NextReachable(s: State, acts: seq<Action>, t: State)
    requires Reachable(s) && Run(s, acts, t) && acts != []
    ensures Enabled(s, acts[0]) && Reachable(Apply(s, acts[0])) && Run(Apply(s, acts[0]), acts[1..], t)
    ensures Apply(s, acts[0]).cap == s.cap
  {
    M.ReachableSound(s);
    assert Enabled(s, acts[0]) && Run(Apply(s, acts[0]), acts[1..], t);
    hide Enabled, Apply, M.Inv;
    R.CapStep(s, acts[0]);
    RunOne(s, acts[0]);
    hide Run;
    StaysReachable(s, [acts[0]], Apply(s, acts[0]));
  }

  lemma GoesWrongLater(s: State, acts: seq<Action>, t: State, id: Id)
    requires Run(s, acts, t) && acts != [] && Enabled(s, acts[0]) && CanGoWrong(Apply(s, acts[0]), acts[1..], id)
    ensures CanGoWrong(s, acts, id)
  {
    hide Run, Stolen, Enabled, Apply;
    var next := Apply(s, acts[0]);
    var k: nat, more, u :|
      k <= |acts[1..]| && R.Internal(more) && Run(next, acts[1..][..k] + more, u) && Stolen(u, id);
    RunFirst(s, acts[0], acts[1..][..k] + more, u);
    assert [acts[0]] + (acts[1..][..k] + more) == acts[..k + 1] + more;
  }
}
