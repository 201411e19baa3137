/** The concurrency cap (src/server.rs:251, 657-664): permits are conserved, and bound the handlers that run. */
module RuntimePermits {
  import opened Wrappers
  import opened Runtime
  import M = RuntimeMutex
  import F = RuntimeFrames
  import O = RuntimeOwnAnswers

  /** From the start of the handler's body to the end of the task. */
  predicate Holding(pc: Pc) {
    pc.Running? || pc.AtClaim? || pc.Claiming? || pc.Claimed? || pc.Closing?
  }

  function Held(requests: seq<Request>): nat {
    if requests == [] then 0
    else Held(requests[..|requests| - 1]) + (if requests[|requests| - 1].permit then 1 else 0)
  }

  function RunningCount(requests: seq<Request>): nat {
    if requests == [] then 0
    else RunningCount(requests[..|requests| - 1]) + (if requests[|requests| - 1].pc.Running? then 1 else 0)
  }

  predicate PermitFits(q: Request, capped: bool) {
    q.permit <==> capped && Holding(q.pc)
  }

  ghost predicate PermitsFit(s: State) {
    forall u :: 0 <= u < |s.requests| ==> PermitFits(s.requests[u], s.cap.Some?)
  }

  ghost predicate Inv(s: State) {
    && PermitsFit(s)
    && (s.cap.Some? ==> s.free + Held(s.requests) == s.cap.value)
  }

  lemma {:induction false} HeldOfChanged(requests: seq<Request>, u: nat, q: Request)
    requires u < |requests|
    ensures Held(requests[u := q]) + (if requests[u].permit then 1 else 0) == Held(requests) + (if q.permit then 1 else 0)
    decreases |requests|
  {
    var n := |requests| - 1;
    if u < n {
      HeldOfChanged(requests[..n], u, q);
      assert requests[u := q][..n] == requests[..n][u := q];
    } else {
      assert requests[u := q][..n] == requests[..n];
    }
  }

  /** The same permits, and perhaps more requests without one. */
  lemma {:induction false} HeldOfQuiet(was: seq<Request>, now: seq<Request>)
    requires |was| <= |now|
    requires forall u :: 0 <= u < |was| ==> now[u].permit == was[u].permit
    requires forall u :: |was| <= u < |now| ==> !now[u].permit
    ensures Held(now) == Held(was)
    decreases |now|
  {
    if now != [] {
      var n := |now| - 1;
      HeldOfQuiet(if |was| > n then was[..n] else was, now[..n]);
    }
  }

  lemma QuietKeeps(s: State, t: State)
    requires F.Quiet(s, t) && Inv(s)
    ensures Inv(t)
  {
    HeldOfQuiet(s.requests, t.requests);
    hide Held;
  }

  lemma TaskKeeps(s: State, u: nat, a: TaskStep)
    requires CanTask(s, u, a) && Inv(s)
    ensures Inv(Task(s, u, a))
  {
    F.TaskFrame(s, u, a);
    PermitStep(s, u, a);
    HeldOfChanged(s.requests, u, Stepped(s, u, a));
    hide Held, Task, Stepped, CanTask, PermitFits;
  }

  lemma PermitStep(s: State, u: nat, a: TaskStep)
    requires CanTask(s, u, a) && PermitsFit(s)
    ensures PermitFits(Stepped(s, u, a), s.cap.Some?)
    ensures a.Acquire? ==> !s.requests[u].permit && (s.cap.Some? ==> s.free > 0)
    ensures Stepped(s, u, a).permit ==
      if a.Acquire? then s.cap.Some? else s.requests[u].permit && !a.Close? && !a.Drop?
  {
  }

  lemma StepKeeps(s: State, a: Action)
    requires M.Inv(s) && Enabled(s, a) && Inv(s)
    ensures Inv(Apply(s, a))
  {
    hide Task, CanTask, M.Inv;
    if a.InTask? {
      TaskKeeps(s, a.u, a.task);
    } else {
      O.LoopStart(s, a);
      F.LoopQuiet(s, a);
      QuietKeeps(s, Apply(s, a));
    }
    hide Apply, Inv;
  }

  lemma {:induction false} RunKeeps(s: State, acts: seq<Action>, t: State)
    requires M.Inv(s) && Inv(s) && Run(s, acts, t)
    ensures Inv(t)
    decreases |acts|
  {
    hide M.Inv, Inv, Enabled, Apply;
    if acts != [] {
      M.StepKeeps(s, acts[0]);
      StepKeeps(s, acts[0]);
      RunKeeps(Apply(s, acts[0]), acts[1..], t);
    }
  }

  lemma ReachableSound(s: State)
    requires Reachable(s)
    ensures Inv(s)
  {
    hide M.Inv, Inv, Run, Init;
    var i, acts :| Init(i) && Run(i, acts, s);
    M.InitInv(i);
    assert Inv(i) by { Starts(i); }
    RunKeeps(i, acts, s);
  }

  lemma Starts(i: State)
    requires Init(i)
    ensures Inv(i)
  {
  }

  lemma {:induction false} RunningHolds(requests: seq<Request>)
    requires forall u :: 0 <= u < |requests| ==> PermitFits(requests[u], true)
    ensures RunningCount(requests) <= Held(requests)
    decreases |requests|
  {
    if requests != [] {
      RunningHolds(requests[..|requests| - 1]);
    }
  }

  /**
    An abort that lands at an await ends the task for good, gives back its permit,
    and leaves its request to whoever aborted it: nothing is answered.
   */
  lemma AbortEndsTheTask(s: State, u: nat)
    requires u < |s.requests| && s.requests[u].aborted
    requires s.requests[u].pc.Waiting? || s.requests[u].pc.Queued? || s.requests[u].pc.Running?
    ensures CanTask(s, u, Drop)
    ensures var t := Task(s, u, Drop);
      && t.requests[u].pc.Dropped? && !t.requests[u].permit && (forall a :: !CanTask(t, u, a))
      && t.free == s.free + (if s.requests[u].permit then 1 else 0)
      && t.answers == s.answers && t.inFlight == s.inFlight && t.mutex == s.mutex
  {
  }

  /**
    Over every run: free and held permits add up to the cap, at most that many
    handlers run at once, and whoever holds a permit is past the watermark.
   */
  lemma PermitsAreConserved(s: State)
    requires Reachable(s) && s.cap.Some?
    ensures s.free + Held(s.requests) == s.cap.value && RunningCount(s.requests) <= s.cap.value
    ensures forall u :: 0 <= u < |s.requests| && s.requests[u].permit ==> Holding(s.requests[u].pc)
  {
    ReachableSound(s);
    hide Reachable, Held, RunningCount;
    RunningHolds(s.requests);
  }

  lemma {:induction false} HolderCounts(requests: seq<Request>, u: nat)
    requires u < |requests| && requests[u].permit
    ensures Held(requests) > 0
    decreases |requests|
  {
    if u < |requests| - 1 {
      HolderCounts(requests[..|requests| - 1], u);
    }
  }

  ghost predicate NoneHandled(s: State) {
    forall k :: 0 <= k < |s.answers| ==> !s.answers[k].reply.Handler?
  }

  lemma NobodyHolds(s: State, u: nat)
    requires Inv(s) && s.cap == Some(0) && u < |s.requests|
    ensures !Holding(s.requests[u].pc)
  {
    hide Held;
    assert PermitFits(s.requests[u], true);
    if s.requests[u].permit {
      HolderCounts(s.requests, u);
    }
  }

  lemma ZeroCapStep(s: State, a: Action)
    requires M.Inv(s) && Inv(s) && Enabled(s, a) && s.cap == Some(0) && NoneHandled(s)
    ensures NoneHandled(Apply(s, a)) && Apply(s, a).cap == Some(0)
  {
    hide Task, M.Inv, Inv, Stepped;
    if a.InTask? {
      NobodyHolds(s, a.u);
      F.TaskFrame(s, a.u, a.task);
    } else {
      O.LoopStart(s, a);
      F.LoopQuiet(s, a);
      hide Apply, Enabled;
    }
  }

  lemma {:induction false} ZeroCapRun(s: State, acts: seq<Action>, t: State)
    requires M.Inv(s) && Inv(s) && Run(s, acts, t) && s.cap == Some(0) && NoneHandled(s)
    ensures Inv(t) && NoneHandled(t) && t.cap == Some(0)
    decreases |acts|
  {
    hide M.Inv, Inv, Enabled, Apply, NoneHandled;
    if acts != [] {
      M.StepKeeps(s, acts[0]);
      StepKeeps(s, acts[0]);
      ZeroCapStep(s, acts[0]);
      ZeroCapRun(Apply(s, acts[0]), acts[1..], t);
    }
  }

  /** A cap of zero is accepted, and then no handler ever runs, let alone answers. */
  lemma ZeroCapNeverRuns(i: State, acts: seq<Action>, s: State)
    requires Init(i) && Run(i, acts, s) && i.cap == Some(0)
    ensures forall u :: 0 <= u < |s.requests| ==> !Holding(s.requests[u].pc)
    ensures forall k :: 0 <= k < |s.answers| ==> !s.answers[k].reply.Handler?
  {
    M.InitInv(i);
    Starts(i);
    hide M.Inv, Inv, Run;
    ZeroCapRun(i, acts, s);
    forall u | 0 <= u < |s.requests| ensures !Holding(s.requests[u].pc) {
      NobodyHolds(s, u);
    }
  }
}
