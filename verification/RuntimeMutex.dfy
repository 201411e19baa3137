/**
  The in-flight map and its mutex (src/server.rs:628-703): who may hold it, what
  the map can contain, and why no task can claim a response before the loop has
  registered the task.
 */
module RuntimeMutex {
  import opened Runtime
  import D = Documents

  // ----- who holds the mutex

  /** The places in the loop between locking the map and unlocking it. */
  predicate Locked(loop: Loop) {
    || loop.SpawnHeld? || loop.Registering?
    || loop.CancelHeld? || loop.CancelRemoved? || loop.CancelTripped? || loop.CancelAborted?
    || loop.TearHeld? || loop.TearRemoved? || loop.TearTripped?
  }

  /** The mutex is held by exactly the component that is inside its critical section. */
  ghost predicate Exclusive(s: State) {
    && (s.mutex.LoopHas? <==> Locked(s.loop))
    && (forall u :: 0 <= u < |s.requests| ==> (s.requests[u].pc.Claiming? <==> s.mutex == TaskHas(u)))
    && (s.mutex.TaskHas? ==> s.mutex.task < |s.requests|)
  }

  // ----- what the loop is working on

  predicate Spawned(s: State, r: nat) {
    r < |s.requests| && !s.requests[r].pc.Unspawned?
  }

  predicate Received(s: State, r: nat, kind: Kind) {
    r < |s.requests| && s.requests[r].kind == kind && s.requests[r].pc.Unspawned?
  }

  ghost predicate LoopSound(s: State) {
    match s.loop
    case Initializing(r) => Received(s, r, Initialize) && !s.requests[r].initializedThen && !s.initialized
    case ShutdownWait(r) => Received(s, r, Shutdown) && s.requests[r].initializedThen && s.initialized
    case ShuttingDown(r) => Received(s, r, Shutdown) && s.requests[r].initializedThen && s.initialized && s.shutdownRequested
    case SpawnWait(r) => Fresh(s, r)
    case SpawnHeld(r) => Fresh(s, r)
    case Refusing(r) => Fresh(s, r)
    case Registering(r) => Spawned(s, r) && s.requests[r].id !in s.inFlight && Untouched(s, r)
    case CancelRemoved(id, r) => Spawned(s, r) && s.requests[r].id == id && id !in s.inFlight
    case CancelTripped(id, r) => Spawned(s, r) && s.requests[r].id == id && id !in s.inFlight && s.requests[r].tripped
    case CancelAborted(id, r) => Spawned(s, r) && s.requests[r].id == id && id !in s.inFlight && s.requests[r].aborted
    case TearRemoved(_, r) => Spawned(s, r) && s.requests[r].id !in s.inFlight
    case TearTripped(_, r) => Spawned(s, r) && s.requests[r].id !in s.inFlight && s.requests[r].tripped
    case Grace(_) => s.inFlight == map[]
    case Over(_) => s.inFlight == map[]
    case _ => true
  }

  /** A feature request about to be spawned, received while the server was running. */
  predicate Fresh(s: State, r: nat) {
    && Received(s, r, Feature) && r + 1 == |s.requests|
    && s.requests[r].initializedThen && !s.requests[r].shutdownThen
  }

  /** Before its claim, with no cancellation on the way. */
  predicate Untouched(s: State, r: nat) {
    && r < |s.requests| && BeforeRemoval(s.requests[r].pc)
    && !s.requests[r].tripped && !s.requests[r].aborted
  }

  predicate BeforeRemoval(pc: Pc) {
    pc.Waiting? || pc.Queued? || pc.Running? || pc.AtClaim? || pc.Claiming?
  }

  // ----- what the map contains

  ghost predicate MapSound(s: State) {
    forall id :: id in s.inFlight ==>
      && s.inFlight[id] < |s.requests| && s.requests[s.inFlight[id]].id == id
      && Untouched(s, s.inFlight[id]) && s.loop != Registering(s.inFlight[id])
  }

  /** Whether the entry of request `r` is in the map. */
  predicate InFlight(s: State, r: nat)
    requires r < |s.requests|
  {
    s.requests[r].id in s.inFlight && s.inFlight[s.requests[r].id] == r
  }

  // ----- tokens and aborts

  /** An abort is only ever requested after the token is tripped, and a task is only ever dropped after that. */
  predicate TokenFirst(q: Request) {
    && (q.aborted ==> q.tripped)
    && (q.tripped ==> !q.pc.Unspawned?)
    && (q.pc.Dropped? ==> q.aborted)
  }

  ghost predicate TokensFirst(s: State) {
    forall u :: 0 <= u < |s.requests| ==> TokenFirst(s.requests[u])
  }

  ghost predicate Inv(s: State) {
    Exclusive(s) && LoopSound(s) && MapSound(s) && TokensFirst(s)
  }

  lemma InitInv(s: State)
    requires Init(s)
    ensures Inv(s)
  {
  }

  lemma InputExclusive(s: State, a: InputStep)
    requires Inv(s) && CanInput(s, a)
    ensures Exclusive(Input(s, a))
  {
    hide LoopSound, MapSound, TokensFirst;
  }

  lemma InputLoopSound(s: State, a: InputStep)
    requires Inv(s) && CanInput(s, a)
    ensures LoopSound(Input(s, a))
  {
    hide Exclusive, MapSound, TokensFirst;
  }

  lemma InputMapSound(s: State, a: InputStep)
    requires Inv(s) && CanInput(s, a)
    ensures MapSound(Input(s, a))
  {
    hide Exclusive, LoopSound, TokensFirst;
    InputFrame(s, a);
    hide Input;
  }

  lemma InputFrame(s: State, a: InputStep)
    requires CanInput(s, a)
    ensures var t := Input(s, a);
      && t.inFlight == s.inFlight && s.requests <= t.requests && !t.loop.Registering?
      && forall u :: |s.requests| <= u < |t.requests| ==> t.requests[u].pc.Unspawned?
  {
  }

  lemma InputTokens(s: State, a: InputStep)
    requires Inv(s) && CanInput(s, a)
    ensures TokensFirst(Input(s, a))
  {
    hide Exclusive, LoopSound, MapSound;
  }

  lemma SetupKeeps(s: State, a: SetupStep)
    requires Inv(s) && CanSetup(s, a)
    ensures Inv(Setup(s, a))
  {
  }

  lemma SpawnKeeps(s: State, a: SpawnStep)
    requires Inv(s) && CanSpawn(s, a)
    ensures Inv(Spawn(s, a))
  {
  }

  lemma CancelExclusive(s: State, a: CancelStep)
    requires Inv(s) && CanCancel(s, a)
    ensures Exclusive(Cancel(s, a))
  {
    hide MapSound, TokensFirst;
  }

  lemma CancelLoopSound(s: State, a: CancelStep)
    requires Inv(s) && CanCancel(s, a)
    ensures LoopSound(Cancel(s, a))
  {
    hide Exclusive, TokensFirst;
  }

  /** A cancellation only takes entries out, and only stops a request that has none. */
  lemma CancelFrame(s: State, a: CancelStep)
    requires Inv(s) && CanCancel(s, a)
    ensures var t := Cancel(s, a);
      && !t.loop.Registering? && |t.requests| == |s.requests|
      && (forall id :: id in t.inFlight ==> id in s.inFlight && t.inFlight[id] == s.inFlight[id])
      && (forall u :: 0 <= u < |s.requests| && s.requests[u].id in t.inFlight ==> t.requests[u] == s.requests[u])
  {
    hide Exclusive, MapSound, TokensFirst;
  }

  lemma CancelMapSound(s: State, a: CancelStep)
    requires Inv(s) && CanCancel(s, a)
    ensures MapSound(Cancel(s, a))
  {
    CancelFrame(s, a);
    hide Exclusive, LoopSound, TokensFirst, Cancel, CanCancel;
  }

  lemma CancelTokens(s: State, a: CancelStep)
    requires Inv(s) && CanCancel(s, a)
    ensures TokensFirst(Cancel(s, a))
  {
    hide Exclusive, MapSound;
  }

  lemma TearExclusive(s: State, a: TearStep)
    requires Inv(s) && CanTear(s, a)
    ensures Exclusive(Tear(s, a))
  {
    hide MapSound, TokensFirst;
  }

  lemma TearLoopSound(s: State, a: TearStep)
    requires Inv(s) && CanTear(s, a)
    ensures LoopSound(Tear(s, a))
  {
    hide Exclusive, TokensFirst;
  }

  lemma TearMapSound(s: State, a: TearStep)
    requires Inv(s) && CanTear(s, a)
    ensures MapSound(Tear(s, a))
  {
    hide Exclusive, TokensFirst;
  }

  lemma TearTokens(s: State, a: TearStep)
    requires Inv(s) && CanTear(s, a)
    ensures TokensFirst(Tear(s, a))
  {
    hide Exclusive, MapSound;
  }

  // ----- what the step of a task leaves alone

  /** A step of a task changes its own request, and of that neither what was received nor the token. */
  lemma TaskFrame(s: State, u: nat, a: TaskStep)
    requires CanTask(s, u, a)
    ensures var t := Task(s, u, a); var q := Stepped(s, u, a);
      && t.loop == s.loop && t.initialized == s.initialized && t.shutdownRequested == s.shutdownRequested
      && t.drained == s.drained && t.requests == s.requests[u := q]
      && t.inFlight == (if a.RemoveEntry? then s.inFlight - {q.id} else s.inFlight)
      && t.mutex == (if a.RemoveEntry? then Free else if a.LockForClaim? then TaskHas(u) else s.mutex)
  {
    hide D.Step;
  }

  lemma StepFrame(s: State, u: nat, a: TaskStep)
    requires CanTask(s, u, a)
    ensures var q := s.requests[u]; var p := Stepped(s, u, a);
      && p.id == q.id && p.kind == q.kind && p.watermark == q.watermark
      && p.initializedThen == q.initializedThen && p.shutdownThen == q.shutdownThen
      && p.tripped == q.tripped && p.aborted == q.aborted
      && !q.pc.Unspawned? && !p.pc.Unspawned?
      && (p.pc.Claiming? <==> a.LockForClaim?) && (q.pc.Claiming? <==> a.RemoveEntry?)
      && (BeforeRemoval(p.pc) <==> BeforeRemoval(q.pc) && !a.RemoveEntry? && !a.Drop?)
      && (a.LockForClaim? ==> s.mutex.Free?) && (a.Drop? <==> p.pc.Dropped?) && (a.Drop? ==> q.aborted)
  {
    hide WaitOver;
    match a
    case RemoveEntry =>
    case Drop =>
    case _ =>
  }

  lemma TaskExclusive(s: State, u: nat, a: TaskStep)
    requires Inv(s) && CanTask(s, u, a)
    ensures Exclusive(Task(s, u, a))
  {
    TaskFrame(s, u, a);
    StepFrame(s, u, a);
    hide Task, Stepped, CanTask, LoopSound, MapSound, TokensFirst;
  }

  lemma TaskLoopSound(s: State, u: nat, a: TaskStep)
    requires Inv(s) && CanTask(s, u, a)
    ensures LoopSound(Task(s, u, a))
  {
    TaskFrame(s, u, a);
    StepFrame(s, u, a);
    hide Task, Stepped, CanTask, MapSound, TokensFirst;
  }

  lemma TaskMapSound(s: State, u: nat, a: TaskStep)
    requires Inv(s) && CanTask(s, u, a)
    ensures MapSound(Task(s, u, a))
  {
    TaskFrame(s, u, a);
    StepFrame(s, u, a);
    hide Task, Stepped, CanTask, LoopSound, TokensFirst, Exclusive;
  }

  lemma TaskTokensFirst(s: State, u: nat, a: TaskStep)
    requires Inv(s) && CanTask(s, u, a)
    ensures TokensFirst(Task(s, u, a))
  {
    TaskFrame(s, u, a);
    StepFrame(s, u, a);
    hide Task, Stepped, CanTask, Exclusive, LoopSound, MapSound;
  }

  // ----- every reachable state

  lemma StepKeeps(s: State, a: Action)
    requires Inv(s) && Enabled(s, a)
    ensures Inv(Apply(s, a))
  {
    hide Input, Setup, Spawn, Cancel, Tear, Work, Task;
    hide CanInput, CanSetup, CanSpawn, CanCancel, CanTear, CanWork, CanTask;
    match a
    case FromClient(b) =>
      InputExclusive(s, b);
      InputLoopSound(s, b);
      InputMapSound(s, b);
      InputTokens(s, b);
    case InSetup(b) => SetupKeeps(s, b);
    case InSpawn(b) => SpawnKeeps(s, b);
    case InCancel(b) =>
      CancelExclusive(s, b);
      CancelLoopSound(s, b);
      CancelMapSound(s, b);
      CancelTokens(s, b);
    case InTeardown(b) =>
      TearExclusive(s, b);
      TearLoopSound(s, b);
      TearMapSound(s, b);
      TearTokens(s, b);
    case InWorker(b) =>
    case InTask(u, b) =>
      TaskExclusive(s, u, b);
      TaskLoopSound(s, u, b);
      TaskMapSound(s, u, b);
      TaskTokensFirst(s, u, b);
  }

  lemma {:induction false} RunKeeps(s: State, acts: seq<Action>, t: State)
    requires Inv(s) && Run(s, acts, t)
    ensures Inv(t)
    decreases |acts|
  {
    hide Inv, Enabled, Apply;
    if acts != [] {
      StepKeeps(s, acts[0]);
      RunKeeps(Apply(s, acts[0]), acts[1..], t);
    }
  }

  lemma ReachableSound(s: State)
    requires Reachable(s)
    ensures Inv(s)
  {
    hide Inv, Init, Run;
    var i, acts :| Init(i) && Run(i, acts, s);
    InitInv(i);
    RunKeeps(i, acts, s);
  }

  /**
    The mutex argument: a handler that finishes on its first poll still cannot
    claim before the loop has registered it. Whenever a task is about to look
    for its entry, it alone holds the mutex, and the loop is outside its critical
    section, with no task spawned and not yet registered.
   */
  lemma NoClaimBeforeRegistration(s: State, u: nat)
    requires Reachable(s) && CanTask(s, u, RemoveEntry)
    ensures s.mutex == TaskHas(u) && !Locked(s.loop) && s.loop != Registering(u)
    ensures forall v :: CanTask(s, v, RemoveEntry) ==> v == u
  {
    ReachableSound(s);
    hide LoopSound, MapSound, TokensFirst;
  }

  /** Nobody else can act on the map while a task or the loop is inside: at most one mutex step is enabled. */
  lemma OneHolder(s: State, u: nat)
    requires Reachable(s) && s.mutex == TaskHas(u)
    ensures CanTask(s, u, RemoveEntry)
    ensures forall b: SpawnStep :: CanSpawn(s, b) ==> b == SendRefusal
    ensures forall b: CancelStep :: !CanCancel(s, b)
  {
    ReachableSound(s);
    hide LoopSound, MapSound, TokensFirst;
  }

  /** Over every run: abort follows trip, and only tripped tasks are ever dropped. */
  lemma AbortFollowsTrip(s: State, u: nat)
    requires Reachable(s) && u < |s.requests|
    ensures s.requests[u].aborted ==> s.requests[u].tripped
    ensures s.requests[u].pc.Dropped? ==> s.requests[u].tripped
  {
    ReachableSound(s);
    hide LoopSound, MapSound, Exclusive;
    assert TokenFirst(s.requests[u]);
  }
}
