/**
  Cooperative cancellation (src/cancel.rs:53-90): waiters check the flag, register
  with the notifier and check again; cancellers set the flag and then notify.
  Every step touches one atomic: the flag, or the notifier. The notifier is
  tokio's `Notify`: a waiter's ticket remembers how many broadcasts there had
  been, registering with a stale ticket succeeds at once, and a broadcast wakes
  every registered waiter.
 */
module CancelToken {

  datatype Place =
    | FirstCheck
    | TakeTicket
    | Register
    | SecondCheck
    | Parked
    | Returned

  /** `registered`: a broadcast will wake it; `woken`: its wait is over. */
  datatype Waiter = Waiter(place: Place, ticket: nat, registered: bool, woken: bool)

  datatype Canceller = Storing | Notifying | Finished

  datatype State = State(cancelled: bool, broadcasts: nat, waiters: seq<Waiter>, cancellers: seq<Canceller>)

  datatype Action = Waits(i: nat) | Cancels(j: nat)

  const START := Waiter(FirstCheck, 0, false, false)

  predicate Init(s: State) {
    && !s.cancelled && s.broadcasts == 0
    && (forall i :: 0 <= i < |s.waiters| ==> s.waiters[i] == START)
    && (forall j :: 0 <= j < |s.cancellers| ==> s.cancellers[j] == Storing)
  }

  predicate Enabled(s: State, a: Action) {
    match a
    case Waits(i) =>
      && i < |s.waiters| && !s.waiters[i].place.Returned?
      && (s.waiters[i].place.Parked? ==> s.waiters[i].woken)
    case Cancels(j) => j < |s.cancellers| && !s.cancellers[j].Finished?
  }

  function Wait(w: Waiter, cancelled: bool, broadcasts: nat): Waiter {
    match w.place
    case FirstCheck => w.(place := if cancelled then Returned else TakeTicket)
    case TakeTicket => w.(place := Register, ticket := broadcasts, registered := false, woken := false)
    case Register =>
      if broadcasts != w.ticket then w.(place := SecondCheck, woken := true)
      else w.(place := SecondCheck, registered := true)
    case SecondCheck => if cancelled then w.(place := Returned, registered := false) else w.(place := Parked)
    case Parked => w.(place := FirstCheck)
    case Returned => w
  }

  function Wake(w: Waiter): Waiter {
    if w.registered then w.(registered := false, woken := true) else w
  }

  /** `notify_waiters`: wake every registered waiter. */
  function WakeAll(waiters: seq<Waiter>): (r: seq<Waiter>)
    ensures |r| == |waiters| && forall i :: 0 <= i < |r| ==> r[i] == Wake(waiters[i])
  {
    if waiters == [] then [] else [Wake(waiters[0])] + WakeAll(waiters[1..])
  }

  function Apply(s: State, a: Action): State
    requires Enabled(s, a)
  {
    match a
    case Waits(i) => s.(waiters := s.waiters[i := Wait(s.waiters[i], s.cancelled, s.broadcasts)])
    case Cancels(j) =>
      if s.cancellers[j].Storing? then s.(cancelled := true, cancellers := s.cancellers[j := Notifying])
      else
        s.(broadcasts := s.broadcasts + 1, waiters := WakeAll(s.waiters), cancellers := s.cancellers[j := Finished])
  }

  predicate Run(s: State, acts: seq<Action>, t: State)
    decreases |acts|
  {
    if acts == [] then s == t
    else Enabled(s, acts[0]) && Run(Apply(s, acts[0]), acts[1..], t)
  }

  ghost predicate Reachable(s: State) {
    exists i: State, acts: seq<Action> :: Init(i) && Run(i, acts, s)
  }

  // ----- the invariant

  predicate YetToNotify(s: State, j: nat) {
    j < |s.cancellers| && s.cancellers[j].Notifying?
  }

  /** Registered or already woken between registering and leaving; never parked past a missed broadcast. */
  ghost predicate WaiterSound(s: State, w: Waiter) {
    && (w.place.SecondCheck? || w.place.Parked? ==> w.registered || w.woken)
    && (w.place.Parked? && s.cancelled && !w.woken ==> exists j :: YetToNotify(s, j))
    && (w.place.Returned? ==> s.cancelled)
  }

  ghost predicate Inv(s: State) {
    && (forall i :: 0 <= i < |s.waiters| ==> WaiterSound(s, s.waiters[i]))
    && (s.cancelled <==> exists j :: 0 <= j < |s.cancellers| && !s.cancellers[j].Storing?)
  }

  lemma WaitKeeps(s: State, i: nat)
    requires Inv(s) && Enabled(s, Waits(i))
    ensures Inv(Apply(s, Waits(i)))
  {
    var t := Apply(s, Waits(i));
    assert forall j :: YetToNotify(t, j) == YetToNotify(s, j);
  }

  lemma StoreKeeps(s: State, j: nat)
    requires Inv(s) && Enabled(s, Cancels(j)) && s.cancellers[j].Storing?
    ensures Inv(Apply(s, Cancels(j)))
  {
    var t := Apply(s, Cancels(j));
    assert YetToNotify(t, j);
    assert !t.cancellers[j].Storing?;
  }

  lemma NotifyKeeps(s: State, j: nat)
    requires Inv(s) && Enabled(s, Cancels(j)) && s.cancellers[j].Notifying?
    ensures Inv(Apply(s, Cancels(j)))
  {
    var t := Apply(s, Cancels(j));
    assert !t.cancellers[j].Storing? && !s.cancellers[j].Storing?;
    forall i | 0 <= i < |t.waiters| ensures WaiterSound(t, t.waiters[i]) {
      assert WaiterSound(s, s.waiters[i]) && t.waiters[i] == Wake(s.waiters[i]);
    }
  }

  lemma StepKeeps(s: State, a: Action)
    requires Inv(s) && Enabled(s, a)
    ensures Inv(Apply(s, a))
  {
    hide Inv;
    match a
    case Waits(i) => WaitKeeps(s, i);
    case Cancels(j) =>
      if s.cancellers[j].Storing? {
        StoreKeeps(s, j);
      } else {
        NotifyKeeps(s, j);
      }
  }

  lemma {:induction false} RunKeeps(s: State, acts: seq<Action>, t: State)
    requires Inv(s) && Run(s, acts, t)
    ensures Inv(t)
    decreases |acts|
  {
    hide Inv, Enabled, Apply;
    if acts != [] {
      StepKeeps(s, acts[0]);
      RunKeeps(Apply(s, acts[0]), acts[1..], t);
    }
  }

  lemma ReachableSound(s: State)
    requires Reachable(s)
    ensures Inv(s)
  {
    hide Run;
    var i, acts :| Init(i) && Run(i, acts, s);
    RunKeeps(i, acts, s);
  }

  /**
    No lost wakeup: for any number of waiters and cancellers, a waiter parked
    while the flag is set has a wakeup pending, or some canceller has yet to
    notify. So once every started cancel has completed, no waiter is left parked.
   */
  lemma NoLostWakeup(s: State, i: nat)
    requires Reachable(s) && s.cancelled && i < |s.waiters| && s.waiters[i].place.Parked?
    ensures s.waiters[i].woken || exists j :: YetToNotify(s, j)
    ensures (forall j :: !YetToNotify(s, j)) ==> Enabled(s, Waits(i))
  {
    ReachableSound(s);
    hide Reachable;
    assert WaiterSound(s, s.waiters[i]);
  }

  /** And no false alarm: a waiter only returns once the token is cancelled, and some canceller has begun. */
  lemma ReturnsOnlyWhenCancelled(s: State, i: nat)
    requires Reachable(s) && i < |s.waiters| && s.waiters[i].place.Returned?
    ensures s.cancelled && exists j :: 0 <= j < |s.cancellers| && !s.cancellers[j].Storing?
  {
    ReachableSound(s);
    hide Reachable;
    assert WaiterSound(s, s.waiters[i]);
  }

  // ----- nobody waits on a broadcast that is over

  /** Whoever is registered took its ticket after the last broadcast. */
  ghost predicate TicketsFresh(s: State) {
    forall i :: 0 <= i < |s.waiters| ==> s.waiters[i].registered ==> s.waiters[i].ticket == s.broadcasts
  }

  lemma TicketStep(s: State, a: Action)
    requires Enabled(s, a) && TicketsFresh(s)
    ensures TicketsFresh(Apply(s, a))
  {
  }

  lemma {:induction false} TicketRun(s: State, acts: seq<Action>, t: State)
    requires Run(s, acts, t) && TicketsFresh(s)
    ensures TicketsFresh(t)
    decreases |acts|
  {
    hide Enabled, Apply, TicketsFresh;
    if acts != [] {
      TicketStep(s, acts[0]);
      TicketRun(Apply(s, acts[0]), acts[1..], t);
    }
  }

  /** A waiter is never registered for a broadcast that was over before it registered. */
  lemma RegisteredIsFresh(s: State, i: nat)
    requires Reachable(s) && i < |s.waiters| && s.waiters[i].registered
    ensures s.waiters[i].ticket == s.broadcasts
  {
    hide Run;
    var start, acts :| Init(start) && Run(start, acts, s);
    TicketRun(start, acts, s);
  }

  // ----- everybody returns

  function WaiterWeight(w: Waiter): nat {
    match w.place
    case FirstCheck => 1
    case TakeTicket => 3
    case Register => 2
    case SecondCheck => 1
    case Parked => 2
    case Returned => 0
  }

  function WaiterWeights(waiters: seq<Waiter>): nat {
    if waiters == [] then 0 else WaiterWeight(waiters[0]) + WaiterWeights(waiters[1..])
  }

  function CancellerWeights(cancellers: seq<Canceller>): nat {
    if cancellers == [] then 0
    else (match cancellers[0] case Storing => 2 case Notifying => 1 case Finished => 0) + CancellerWeights(cancellers[1..])
  }

  function Measure(s: State): nat {
    WaiterWeights(s.waiters) + CancellerWeights(s.cancellers)
  }

  lemma {:induction false} OneWaiterLighter(waiters: seq<Waiter>, i: nat, w: Waiter)
    requires i < |waiters|
    ensures WaiterWeights(waiters[i := w]) + WaiterWeight(waiters[i]) == WaiterWeights(waiters) + WaiterWeight(w)
    decreases |waiters|
  {
    hide WaiterWeight;
    if i == 0 {
      assert waiters[0 := w][1..] == waiters[1..];
    } else {
      OneWaiterLighter(waiters[1..], i - 1, w);
      assert waiters[i := w][1..] == waiters[1..][i - 1 := w];
    }
  }

  lemma {:induction false} OneCancellerLighter(cancellers: seq<Canceller>, j: nat)
    requires j < |cancellers| && !cancellers[j].Finished?
    ensures CancellerWeights(cancellers[j := if cancellers[j].Storing? then Notifying else Finished])
      == CancellerWeights(cancellers) - 1
    decreases |cancellers|
  {
    var next := if cancellers[j].Storing? then Notifying else Finished;
    if j == 0 {
      assert cancellers[0 := next][1..] == cancellers[1..];
    } else {
      OneCancellerLighter(cancellers[1..], j - 1);
      assert cancellers[j := next][1..] == cancellers[1..][j - 1 := next];
    }
  }

  lemma {:induction false} WakingWeighsNothing(waiters: seq<Waiter>)
    ensures WaiterWeights(WakeAll(waiters)) == WaiterWeights(waiters)
    decreases |waiters|
  {
    if waiters != [] {
      WakingWeighsNothing(waiters[1..]);
      assert WakeAll(waiters)[1..] == WakeAll(waiters[1..]);
    }
  }

  lemma StepFalls(s: State, a: Action)
    requires Enabled(s, a) && s.cancelled
    ensures Measure(Apply(s, a)) < Measure(s) && Apply(s, a).cancelled
  {
    hide WaiterWeights, CancellerWeights, WakeAll;
    match a
    case Waits(i) => OneWaiterLighter(s.waiters, i, Wait(s.waiters[i], s.cancelled, s.broadcasts));
    case Cancels(j) =>
      OneCancellerLighter(s.cancellers, j);
      WakingWeighsNothing(s.waiters);
  }

  /**
    Once the flag is set, every run is bounded, and one that can go no further
    has brought every waiter back.
   */
  lemma {:induction false} EveryWaiterReturns(s: State, acts: seq<Action>, t: State)
    requires Inv(s) && s.cancelled && Run(s, acts, t)
    ensures |acts| <= Measure(s)
    ensures (forall a :: !Enabled(t, a)) ==>
      forall i :: 0 <= i < |t.waiters| ==> t.waiters[i].place.Returned?
    decreases |acts|
  {
    if acts == [] {
      hide Measure;
      if forall a :: !Enabled(t, a) {
        forall i | 0 <= i < |t.waiters| ensures t.waiters[i].place.Returned? {
          assert WaiterSound(t, t.waiters[i]) && !Enabled(t, Waits(i));
          assert forall j :: YetToNotify(t, j) ==> Enabled(t, Cancels(j));
        }
      }
    } else {
      hide Enabled, Apply, Measure, Inv;
      StepKeeps(s, acts[0]);
      StepFalls(s, acts[0]);
      EveryWaiterReturns(Apply(s, acts[0]), acts[1..], t);
    }
  }

  // ----- what the second check is for

  /** The same waiter without the second check: once registered it always parks. */
  function CarelessWait(w: Waiter, cancelled: bool, broadcasts: nat): Waiter {
    if w.place.SecondCheck? then w.(place := Parked) else Wait(w, cancelled, broadcasts)
  }

  function CarelessApply(s: State, a: Action): State
    requires Enabled(s, a)
  {
    match a
    case Waits(i) => s.(waiters := s.waiters[i := CarelessWait(s.waiters[i], s.cancelled, s.broadcasts)])
    case Cancels(_) => Apply(s, a)
  }

  predicate CarelessRun(s: State, acts: seq<Action>, t: State)
    decreases |acts|
  {
    if acts == [] then s == t
    else Enabled(s, acts[0]) && CarelessRun(CarelessApply(s, acts[0]), acts[1..], t)
  }

  /** Parked for good: every cancel is over, and nothing anybody can do remains. */
  ghost predicate Asleep(s: State, i: nat) {
    && s.cancelled && i < |s.waiters| && s.waiters[i].place.Parked? && !s.waiters[i].woken
    && (forall j :: 0 <= j < |s.cancellers| ==> s.cancellers[j].Finished?)
    && (forall a :: !Enabled(s, a))
  }

  /** The start of a waiter, a whole cancel, and the rest of the waiter. */
  const RACE := [Waits(0), Cancels(0), Cancels(0), Waits(0), Waits(0), Waits(0)]

  lemma CarelessStep(s: State, a: Action, acts: seq<Action>, t: State)
    requires Enabled(s, a) && CarelessRun(CarelessApply(s, a), acts, t)
    ensures CarelessRun(s, [a] + acts, t)
  {
    assert ([a] + acts)[1..] == acts;
  }

  /**
    Without the second check a wakeup can be lost: a cancel that begins and ends
    between a waiter's first check and its registration leaves it parked for
    good. With the check, no reachable state has a waiter asleep.
   */
  lemma SecondCheckMatters()
    ensures exists i: State, s: State :: Init(i) && CarelessRun(i, RACE, s) && Asleep(s, 0)
    ensures forall s: State, i: nat :: Reachable(s) ==> !Asleep(s, i)
  {
    var start := State(false, 0, [START], [Storing]);
    var end := State(true, 1, [Waiter(Parked, 1, true, false)], [Finished]);
    RaceLosesTheWakeup(start, end);
    hide CarelessRun, Reachable;
    assert Init(start) && Asleep(end, 0);
    forall s: State, i: nat | Reachable(s) ensures !Asleep(s, i) {
      if Asleep(s, i) {
        NoLostWakeup(s, i);
        assert false;
      }
    }
  }

  lemma RaceLosesTheWakeup(start: State, end: State)
    requires start == State(false, 0, [START], [Storing])
    requires end == State(true, 1, [Waiter(Parked, 1, true, false)], [Finished])
    ensures CarelessRun(start, RACE, end)
  {
    var s1 := CarelessApply(start, Waits(0));
    var s2 := CarelessApply(s1, Cancels(0));
    var s3 := CarelessApply(s2, Cancels(0));
    var s4 := CarelessApply(s3, Waits(0));
    var s5 := CarelessApply(s4, Waits(0));
    assert CarelessApply(s5, Waits(0)) == end;
    assert CarelessRun(end, [], end);
    CarelessStep(s5, Waits(0), [], end);
    CarelessStep(s4, Waits(0), [Waits(0)], end);
    CarelessStep(s3, Waits(0), RACE[4..], end);
    CarelessStep(s2, Cancels(0), RACE[3..], end);
    CarelessStep(s1, Cancels(0), RACE[2..], end);
    CarelessStep(start, Waits(0), RACE[1..], end);
    hide CarelessRun;
    assert [Waits(0)] + RACE[1..] == RACE;
  }
}
