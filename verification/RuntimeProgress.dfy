/**
  Progress (src/server.rs:251, 506, 555-561, 657-694): once the input stops, every
  step brings the end nearer, some step is always possible while anything is
  under way, and when none is, everything received has been settled. Handlers
  are assumed to finish on their own, without a further message from the client.
 */
module RuntimeProgress {
  import opened Wrappers
  import opened Runtime
  import M = RuntimeMutex
  import F = RuntimeFrames
  import A = RuntimeAccounts
  import C = RuntimeCancellation
  import N = RuntimeNotes
  import O = RuntimeOwnAnswers
  import P = RuntimePermits
  import D = Documents

  // ----- the measure

  function TaskWeight(q: Request): nat {
    match q.pc
    case Waiting => 8 + q.work
    case Queued => 7 + q.work
    case Running => 6 + q.work
    case AtClaim(_) => 5
    case Claiming(_) => 4
    case Claimed(_, _) => 3
    case Closing => 1
    case _ => 0
  }

  function TaskWeights(requests: seq<Request>): nat {
    if requests == [] then 0
    else TaskWeights(requests[..|requests| - 1]) + TaskWeight(requests[|requests| - 1])
  }

  function WorkOf(requests: seq<Request>, r: nat): nat {
    if r < |requests| then requests[r].work else 0
  }

  function LoopWeight(loop: Loop, requests: seq<Request>): nat {
    match loop
    case Initializing(_) => 1
    case ShutdownWait(_) => 2
    case ShuttingDown(_) => 1
    case SpawnWait(r) => 16 + WorkOf(requests, r)
    case SpawnHeld(r) => 15 + WorkOf(requests, r)
    case Refusing(_) => 1
    case Registering(_) => 6
    case CancelWait(_) => 6
    case CancelHeld(_) => 5
    case CancelRemoved(_, _) => 3
    case CancelTripped(_, _) => 2
    case CancelAborted(_, _) => 1
    case TearWait(_) => 6
    case TearHeld(_) => 5
    case TearRemoved(_, _) => 7
    case TearTripped(_, _) => 6
    case Grace(_) => 1
    case _ => 0
  }

  function NotesWeight(n: Notes): nat {
    3 * |n.queue| + (if n.stopping then 0 else 1)
    + match n.worker
      case Idle => 1
      case Handling(_) => 3
      case Handled(_) => 2
      case Ended => 0
  }

  function Measure(s: State): nat {
    LoopWeight(s.loop, s.requests) + 5 * |s.inFlight| + TaskWeights(s.requests) + NotesWeight(s.notes)
  }

  lemma {:induction false} ChangedWeight(requests: seq<Request>, u: nat, q: Request)
    requires u < |requests|
    ensures TaskWeights(requests[u := q]) + TaskWeight(requests[u]) == TaskWeights(requests) + TaskWeight(q)
    decreases |requests|
  {
    hide TaskWeight;
    var n := |requests| - 1;
    if u < n {
      ChangedWeight(requests[..n], u, q);
      assert requests[u := q][..n] == requests[..n][u := q];
    } else {
      assert requests[u := q][..n] == requests[..n];
    }
  }

  /** Tripping or aborting moves no task. */
  lemma SameWeight(requests: seq<Request>, u: nat, q: Request)
    requires u < |requests| && q.pc == requests[u].pc && q.work == requests[u].work
    ensures TaskWeights(requests[u := q]) == TaskWeights(requests)
  {
    ChangedWeight(requests, u, q);
  }

  lemma OneEntryLess(m: map<Id, nat>, id: Id)
    requires id in m
    ensures |m - {id}| == |m| - 1
  {
    var less := m - {id};
    assert less.Keys == m.Keys - {id};
    assert |less| == |less.Keys| && |m| == |m.Keys|;
  }

  lemma OneEntryMore(m: map<Id, nat>, id: Id, r: nat)
    requires id !in m
    ensures |m[id := r]| == |m| + 1
  {
    var more := m[id := r];
    assert more.Keys == m.Keys + {id};
    assert |more| == |more.Keys| && |m| == |m.Keys|;
  }

  // ----- every step but the input's brings it down

  lemma SetupFalls(s: State, a: SetupStep)
    requires CanSetup(s, a)
    ensures Measure(Setup(s, a)) < Measure(s)
  {
    hide TaskWeights, NotesWeight;
  }

  lemma SpawnFalls(s: State, a: SpawnStep)
    requires M.Inv(s) && CanSpawn(s, a)
    ensures Measure(Spawn(s, a)) < Measure(s)
  {
    hide TaskWeights, NotesWeight, M.Exclusive, M.MapSound, M.TokensFirst;
    match a {
      case StartTask => ChangedWeight(s.requests, s.loop.r, s.requests[s.loop.r].(pc := Waiting));
      case Register => OneEntryMore(s.inFlight, s.requests[s.loop.r].id, s.loop.r);
      case _ =>
    }
  }

  lemma CancelFalls(s: State, a: CancelStep)
    requires CanCancel(s, a)
    ensures Measure(Cancel(s, a)) < Measure(s)
  {
    hide TaskWeights, TaskWeight, NotesWeight, WorkOf;
    if a.LookUp? && s.loop.id in s.inFlight {
      OneEntryLess(s.inFlight, s.loop.id);
    } else if a.Trip? {
      SameWeight(s.requests, s.loop.r, s.requests[s.loop.r].(tripped := true));
    } else if a.Abort? {
      SameWeight(s.requests, s.loop.r, s.requests[s.loop.r].(aborted := true));
    }
  }

  lemma TearFalls(s: State, a: TearStep)
    requires CanTear(s, a)
    ensures Measure(Tear(s, a)) < Measure(s)
  {
    hide TaskWeights, TaskWeight, WorkOf;
    if a.Take? {
      OneEntryLess(s.inFlight, a.id);
    } else if a.TripTaken? {
      SameWeight(s.requests, s.loop.r, s.requests[s.loop.r].(tripped := true));
    } else if a.AbortTaken? {
      SameWeight(s.requests, s.loop.r, s.requests[s.loop.r].(aborted := true));
    }
  }

  lemma WorkFalls(n: Notes, a: WorkerStep, closed: bool, s: State)
    requires n == s.notes && CanWork(n, a, closed)
    ensures NotesWeight(Work(n, a, s.enc)) < NotesWeight(n)
  {
    hide D.Step;
  }

  lemma TaskFalls(s: State, u: nat, a: TaskStep)
    requires M.Inv(s) && CanTask(s, u, a)
    ensures Measure(Task(s, u, a)) < Measure(s)
  {
    M.TaskFrame(s, u, a);
    M.StepFrame(s, u, a);
    TaskNotesWeight(s, u, a);
    StepLighter(s, u, a);
    ChangedWeight(s.requests, u, Stepped(s, u, a));
    EntriesNotMore(s, u, a);
    SameLoopWeight(s, u, Stepped(s, u, a));
    hide Task, Stepped, CanTask, TaskWeight, TaskWeights, LoopWeight, NotesWeight, M.Inv, M.BeforeRemoval;
  }

  lemma TaskNotesWeight(s: State, u: nat, a: TaskStep)
    requires CanTask(s, u, a)
    ensures NotesWeight(Task(s, u, a).notes) == NotesWeight(s.notes)
  {
    N.TaskNotes(s, u, a);
    hide Task, D.Step;
  }

  lemma EntriesNotMore(s: State, u: nat, a: TaskStep)
    requires CanTask(s, u, a)
    ensures |Task(s, u, a).inFlight| <= |s.inFlight|
  {
    M.TaskFrame(s, u, a);
    hide Task, Stepped, CanTask;
    var id := Stepped(s, u, a).id;
    if id in s.inFlight {
      OneEntryLess(s.inFlight, id);
    } else {
      assert s.inFlight - {id} == s.inFlight;
    }
  }

  lemma StepLighter(s: State, u: nat, a: TaskStep)
    requires CanTask(s, u, a)
    ensures TaskWeight(Stepped(s, u, a)) < TaskWeight(s.requests[u])
  {
  }

  /** The loop only weighs the work of a request it has not spawned. */
  lemma SameLoopWeight(s: State, u: nat, q: Request)
    requires M.Inv(s) && u < |s.requests| && !s.requests[u].pc.Unspawned?
    ensures LoopWeight(s.loop, s.requests[u := q]) == LoopWeight(s.loop, s.requests)
  {
    hide M.Exclusive, M.MapSound, M.TokensFirst;
  }

  lemma StepFalls(s: State, a: Action)
    requires M.Inv(s) && Enabled(s, a) && !a.FromClient?
    ensures Measure(Apply(s, a)) < Measure(s)
  {
    hide Input, Setup, Spawn, Cancel, Tear, Work, Task;
    hide CanInput, CanSetup, CanSpawn, CanCancel, CanTear, CanWork, CanTask;
    hide M.Inv, TaskWeights, LoopWeight, NotesWeight;
    match a
    case FromClient(_) =>
    case InSetup(b) => SetupFalls(s, b);
    case InSpawn(b) => SpawnFalls(s, b);
    case InCancel(b) => CancelFalls(s, b);
    case InTeardown(b) => TearFalls(s, b);
    case InWorker(b) => WorkFalls(s.notes, b, TearingDown(s.loop), s);
    case InTask(u, b) => TaskFalls(s, u, b);
  }

  predicate Internal(acts: seq<Action>) {
    forall i :: 0 <= i < |acts| ==> !acts[i].FromClient?
  }

  /** Once the input stops, no run is longer than the measure of where it starts. */
  lemma {:induction false} RunsAreShort(s: State, acts: seq<Action>, t: State)
    requires M.Inv(s) && Run(s, acts, t) && Internal(acts)
    ensures |acts| + Measure(t) <= Measure(s)
    decreases |acts|
  {
    hide M.Inv, Enabled, Apply, Measure;
    if acts != [] {
      M.StepKeeps(s, acts[0]);
      StepFalls(s, acts[0]);
      assert forall i :: 0 <= i < |acts[1..]| ==> acts[1..][i] == acts[i + 1];
      RunsAreShort(Apply(s, acts[0]), acts[1..], t);
    }
  }

  // ----- while anything is under way, some step is possible

  predicate Finished(pc: Pc) {
    pc.Unspawned? || pc.Done? || pc.Dropped?
  }

  ghost predicate Settled(s: State) {
    && (s.loop.Reading? || s.loop.Over?) && s.mutex.Free?
    && (s.notes.worker.Ended? || (s.notes.worker.Idle? && s.notes.queue == []))
    && (forall u :: 0 <= u < |s.requests| ==> Finished(s.requests[u].pc))
  }

  ghost predicate Inv(s: State) {
    M.Inv(s) && N.Inv(s) && P.Inv(s) && s.cap != Some(0)
  }

  /** The worker has nothing left to do. */
  predicate Resting(s: State) {
    s.notes.worker.Ended? || (s.notes.worker.Idle? && s.notes.queue == [] && !TearingDown(s.loop))
  }

  lemma WorkerCan(s: State) returns (a: Action)
    requires !Resting(s)
    ensures Enabled(s, a) && a.InWorker?
  {
    a := InWorker(if s.notes.worker.Handled? then PublishNote
                  else if s.notes.worker.Handling? then ApplyNote
                  else if s.notes.queue != [] then TakeNote
                  else EndWorker);
  }

  /** Then nobody waits for notifications any more. */
  lemma WaitsAreOver(s: State, u: nat)
    requires N.Inv(s) && Resting(s) && u < |s.requests|
    ensures WaitOver(s.notes, s.requests[u].watermark)
  {
    hide N.QueueFits;
    assert N.Waited(s.requests[u], s.notes);
  }

  lemma LockedLoopCan(s: State) returns (a: Action)
    requires M.Inv(s) && s.mutex.LoopHas?
    ensures Enabled(s, a) && !a.FromClient?
  {
    hide M.MapSound, M.TokensFirst;
    match s.loop {
      case SpawnHeld(r) => a := InSpawn(if s.requests[r].id in s.inFlight then Refuse else StartTask);
      case Registering(r) => a := InSpawn(Register);
      case CancelHeld(_) => a := InCancel(LookUp);
      case CancelRemoved(_, _) => a := InCancel(Trip);
      case CancelTripped(_, _) => a := InCancel(Abort);
      case CancelAborted(_, _) => a := InCancel(AnswerCancelled);
      case TearHeld(_) =>
        if s.inFlight == map[] {
          a := InTeardown(Unlock);
        } else {
          var id :| id in s.inFlight;
          a := InTeardown(Take(id));
        }
      case TearRemoved(_, _) => a := InTeardown(TripTaken);
      case _ => a := InTeardown(AbortTaken);
    }
  }

  lemma FreeLoopCan(s: State) returns (a: Action)
    requires M.Inv(s) && N.Inv(s) && Resting(s) && s.mutex.Free? && !s.loop.Reading? && !s.loop.Over?
    ensures Enabled(s, a) && !a.FromClient?
  {
    hide M.MapSound, M.TokensFirst, N.Inv;
    match s.loop {
      case Initializing(_) => a := InSetup(InitializeEnds(true));
      case ShutdownWait(r) =>
        WaitsAreOver(s, r);
        a := InSetup(ShutdownProceeds);
      case ShuttingDown(_) => a := InSetup(ShutdownEnds(true));
      case SpawnWait(_) => a := InSpawn(LockForSpawn);
      case Refusing(_) => a := InSpawn(SendRefusal);
      case CancelWait(_) => a := InCancel(LockForCancel);
      case TearWait(_) => a := InTeardown(LockForTeardown);
      case _ => a := InTeardown(Finish);
    }
  }

  lemma {:induction false} SomeHolder(requests: seq<Request>) returns (u: nat)
    requires P.Held(requests) > 0
    ensures u < |requests| && requests[u].permit
    decreases |requests|
  {
    var n := |requests| - 1;
    if requests[n].permit {
      u := n;
    } else {
      u := SomeHolder(requests[..n]);
    }
  }

  lemma HolderCan(s: State, u: nat) returns (a: Action)
    requires M.Inv(s) && s.mutex.Free? && u < |s.requests| && P.Holding(s.requests[u].pc)
    ensures Enabled(s, a) && a.InTask? && a.u == u && !a.task.RemoveEntry? && !a.task.Drop?
  {
    hide M.LoopSound, M.MapSound, M.TokensFirst;
    a := InTask(u, match s.requests[u].pc
      case Running => EndHandler(HandlerPanicked)
      case AtClaim(_) => LockForClaim
      case Claimed(_, _) => Send
      case _ => Close);
  }

  lemma TaskCan(s: State, u: nat) returns (a: Action)
    requires Inv(s) && Resting(s) && s.mutex.Free? && u < |s.requests| && !Finished(s.requests[u].pc)
    ensures Enabled(s, a) && !a.FromClient?
  {
    hide M.Inv, N.Inv;
    match s.requests[u].pc {
      case Waiting =>
        WaitsAreOver(s, u);
        a := InTask(u, Ready);
      case Queued =>
        if s.cap.None? || s.free > 0 {
          a := InTask(u, Acquire);
        } else {
          var v := SomeHolder(s.requests);
          assert P.PermitFits(s.requests[v], true);
          a := HolderCan(s, v);
        }
      case _ => a := HolderCan(s, u);
    }
  }

  /** No deadlock: in a reachable state that is not settled, some step other than input is enabled. */
  lemma SomethingCanHappen(s: State) returns (a: Action)
    requires Inv(s) && !Settled(s)
    ensures Enabled(s, a) && !a.FromClient?
  {
    hide M.LoopSound, M.MapSound, M.TokensFirst, N.Inv, P.Inv, Enabled;
    if !Resting(s) {
      a := WorkerCan(s);
    } else if s.mutex.LoopHas? {
      a := LockedLoopCan(s);
    } else if s.mutex.TaskHas? {
      a := InTask(s.mutex.task, RemoveEntry);
      assert Enabled(s, a) by { TaskWithMutexCan(s); }
    } else if !s.loop.Reading? && !s.loop.Over? {
      a := FreeLoopCan(s);
    } else {
      var u :| 0 <= u < |s.requests| && !Finished(s.requests[u].pc);
      a := TaskCan(s, u);
    }
  }

  lemma TaskWithMutexCan(s: State)
    requires M.Inv(s) && s.mutex.TaskHas?
    ensures Enabled(s, InTask(s.mutex.task, RemoveEntry))
  {
    hide M.LoopSound, M.MapSound, M.TokensFirst;
  }

  lemma ReachableInv(s: State)
    requires Reachable(s) && s.cap != Some(0)
    ensures Inv(s)
  {
    M.ReachableSound(s);
    N.ReachableSound(s);
    P.ReachableSound(s);
    hide *;
    hide M.Inv, N.Inv, P.Inv;
  }

  // ----- what is left when nothing can happen

  lemma SettledMapIsEmpty(s: State)
    requires M.Inv(s) && Settled(s)
    ensures s.inFlight == map[]
  {
    hide M.Exclusive, M.LoopSound, M.TokensFirst;
    assert forall id :: id !in s.inFlight;
  }

  lemma {:induction false} NoneUnsent(w: A.Scale, requests: seq<Request>)
    requires forall u :: 0 <= u < |requests| ==> Finished(requests[u].pc)
    ensures A.Unsent(w, requests) == 0
    decreases |requests|
  {
    if requests != [] {
      NoneUnsent(w, requests[..|requests| - 1]);
    }
  }

  ghost predicate Stuck(s: State) {
    forall a :: Enabled(s, a) ==> a.FromClient?
  }

  /**
    Nothing is in flight, and request `r` has been answered exactly once, or, if
    the loop has ended, answered or drained, once and not both; while the loop
    still reads, every notification received has been applied.
   */
  ghost predicate SettledOnce(t: State, r: nat) {
    && t.inFlight == map[] && (t.loop.Reading? || t.loop.Over?)
    && A.Sent(A.OneRequest(r), t.answers) + A.Drained(A.OneRequest(r), t.drained) == 1
    && (t.loop.Reading? ==> A.Sent(A.OneRequest(r), t.answers) == 1 && t.notes.applied == t.notes.log)
  }

  /**
    Every run drains. From a reachable state with a cap of at least one (or none),
    runs without further input are bounded, and where such a run can go no
    further, every request received has been answered exactly once, or, when the
    loop has ended, answered or drained, once and not both.
   */
  lemma EveryRunDrains(s: State, acts: seq<Action>, t: State, r: nat)
    requires Reachable(s) && s.cap != Some(0) && Run(s, acts, t) && Internal(acts)
    ensures |acts| <= Measure(s)
    ensures Stuck(t) && r < |t.requests| ==> SettledOnce(t, r)
  {
    M.ReachableSound(s);
    StaysReachable(s, acts, t);
    CapStays(s, acts, t);
    hide Reachable, Run, M.Inv, Measure, A.Sent, A.Drained, Inv, Enabled, Settled;
    RunsAreShort(s, acts, t);
    if Stuck(t) && r < |t.requests| {
      StuckIsSettled(t);
      SettledIsAnswered(t, r);
    }
  }

  lemma StuckIsSettled(s: State)
    requires Reachable(s) && s.cap != Some(0) && Stuck(s)
    ensures Inv(s) && Settled(s)
  {
    ReachableInv(s);
    hide Reachable, Inv, Enabled, Settled;
    if !Settled(s) {
      var a := SomethingCanHappen(s);
      assert false;
    }
  }

  lemma SettledIsAnswered(s: State, r: nat)
    requires Reachable(s) && Inv(s) && Settled(s) && r < |s.requests|
    ensures s.inFlight == map[] && (s.loop.Reading? || s.loop.Over?)
    ensures A.Sent(A.OneRequest(r), s.answers) + A.Drained(A.OneRequest(r), s.drained) == 1
    ensures s.loop.Reading? ==> A.Sent(A.OneRequest(r), s.answers) == 1 && s.notes.applied == s.notes.log
  {
    A.ExactlyOnePlace(s, r);
    SettledMapIsEmpty(s);
    C.AnswersTellTheTruth(s);
    NoneUnsent(A.OneRequest(r), s.requests);
    hide Reachable, M.Inv, N.Inv, P.Inv, A.Sent, A.Unsent;
  }

  lemma {:induction false} CapStays(s: State, acts: seq<Action>, t: State)
    requires M.Inv(s) && Run(s, acts, t)
    ensures t.cap == s.cap
    decreases |acts|
  {
    hide M.Inv, Enabled, Apply;
    if acts != [] {
      M.StepKeeps(s, acts[0]);
      CapStep(s, acts[0]);
      CapStays(Apply(s, acts[0]), acts[1..], t);
    }
  }

  lemma CapStep(s: State, a: Action)
    requires M.Inv(s) && Enabled(s, a)
    ensures Apply(s, a).cap == s.cap
  {
    hide M.Inv, Task, CanTask;
    if a.InTask? {
      F.TaskFrame(s, a.u, a.task);
    } else {
      O.LoopStart(s, a);
      F.LoopQuiet(s, a);
      hide Apply, Enabled;
    }
  }

  /** And it can always be drained: some run without input leads to a settled state. */
  lemma {:induction false} CanDrain(s: State) returns (acts: seq<Action>, t: State)
    requires Inv(s)
    ensures Run(s, acts, t) && Internal(acts) && Settled(t)
    decreases Measure(s)
  {
    hide M.Inv, N.Inv, P.Inv, Enabled, Apply, Settled, Measure;
    if Settled(s) {
      acts, t := [], s;
    } else {
      var a := SomethingCanHappen(s);
      M.StepKeeps(s, a);
      N.StepKeeps(s, a);
      P.StepKeeps(s, a);
      CapStep(s, a);
      StepFalls(s, a);
      var later;
      later, t := CanDrain(Apply(s, a));
      acts := [a] + later;
      RunFirst(s, a, later, t);
    }
  }
}
