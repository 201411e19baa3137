/**
  The outbound queue (src/client.rs:33-78, src/server.rs:257-276): senders count a
  message before they push it, the writer uncounts it after it has popped it, and
  the limit on client-originated traffic is checked apart from both.
 */
module Outbound {
  import opened Wrappers

  /** Client-originated traffic observes the limit; a response owed by the protocol does not. */
  datatype Origin = FromBackend | Owed

  /** `Passed` the limit check; `Counted` in the depth and about to be pushed. */
  datatype Place = Idle | Passed | Counted

  datatype Sender = Sender(origin: Origin, place: Place)

  /** `inHand`: the writer has popped a message it has not uncounted; `open`: the writer still lives. */
  datatype State = State(
    limit: Option<nat>, depth: int, queue: seq<Origin>, inHand: bool, open: bool, senders: seq<Sender>)

  datatype Action = Check(i: nat) | Count(i: nat) | Push(i: nat) | Pop | Uncount | Die

  predicate Init(s: State) {
    && s.depth == 0 && s.queue == [] && !s.inHand && s.open
    && forall i :: 0 <= i < |s.senders| ==> s.senders[i].place.Idle?
  }

  /** Below the limit; no limit stands for the largest machine word, which is never reached. */
  predicate Below(s: State) {
    s.limit.Some? ==> s.depth < s.limit.value
  }

  predicate Enabled(s: State, a: Action) {
    match a
    case Check(i) => i < |s.senders| && s.senders[i] == Sender(FromBackend, Idle)
    case Count(i) => i < |s.senders| && (s.senders[i] == Sender(FromBackend, Passed) || s.senders[i] == Sender(Owed, Idle))
    case Push(i) => i < |s.senders| && s.senders[i].place.Counted?
    case Pop => s.open && !s.inHand && s.queue != []
    case Uncount => s.open && s.inHand
    case Die => s.open && !s.inHand
  }

  function Move(s: State, i: nat, place: Place): State
    requires i < |s.senders|
  {
    s.(senders := s.senders[i := s.senders[i].(place := place)])
  }

  /** A refused check leaves the sender idle; a push after the writer's death is lost. */
  function Apply(s: State, a: Action): State
    requires Enabled(s, a)
  {
    match a
    case Check(i) => if Below(s) then Move(s, i, Passed) else s
    case Count(i) => Move(s, i, Counted).(depth := s.depth + 1)
    case Push(i) =>
      Move(s, i, Idle).(queue := if s.open then s.queue + [s.senders[i].origin] else s.queue)
    case Pop => s.(queue := s.queue[1..], inHand := true)
    case Uncount => s.(depth := s.depth - 1, inHand := false)
    case Die => s.(open := false, queue := [])
  }

  predicate Run(s: State, acts: seq<Action>, t: State)
    decreases |acts|
  {
    if acts == [] then s == t
    else Enabled(s, acts[0]) && Run(Apply(s, acts[0]), acts[1..], t)
  }

  // ----- counting

  function Counting(senders: seq<Sender>): nat {
    if senders == [] then 0
    else Counting(senders[..|senders| - 1]) + (if senders[|senders| - 1].place.Counted? then 1 else 0)
  }

  function Backends(senders: seq<Sender>): nat {
    if senders == [] then 0
    else Backends(senders[..|senders| - 1]) + (if senders[|senders| - 1].origin.FromBackend? then 1 else 0)
  }

  predicate PastCheck(x: Sender) {
    x.origin.FromBackend? && !x.place.Idle?
  }

  /** Client-originated messages past the check and not yet pushed. */
  function Past(senders: seq<Sender>): nat {
    if senders == [] then 0
    else Past(senders[..|senders| - 1]) + (if PastCheck(senders[|senders| - 1]) then 1 else 0)
  }

  function Limited(queue: seq<Origin>): nat {
    if queue == [] then 0
    else Limited(queue[..|queue| - 1]) + (if queue[|queue| - 1].FromBackend? then 1 else 0)
  }

  lemma {:induction false} OneSender(senders: seq<Sender>, i: nat, x: Sender)
    requires i < |senders| && x.origin == senders[i].origin
    ensures Counting(senders[i := x]) + (if senders[i].place.Counted? then 1 else 0)
      == Counting(senders) + (if x.place.Counted? then 1 else 0)
    ensures Backends(senders[i := x]) == Backends(senders)
    ensures Past(senders[i := x]) + (if PastCheck(senders[i]) then 1 else 0)
      == Past(senders) + (if PastCheck(x) then 1 else 0)
    decreases |senders|
  {
    var n := |senders| - 1;
    if i < n {
      OneSender(senders[..n], i, x);
      assert senders[i := x][..n] == senders[..n][i := x];
    } else {
      assert senders[i := x][..n] == senders[..n];
    }
  }

  lemma {:induction false} CountsBound(senders: seq<Sender>)
    ensures Past(senders) <= Backends(senders)
    ensures Past(senders) - Counting(senders) <= Waiting(senders) <= Backends(senders)
    decreases |senders|
  {
    if senders != [] {
      CountsBound(senders[..|senders| - 1]);
    }
  }

  /** Those past the check and not counted yet. */
  function Waiting(senders: seq<Sender>): nat {
    if senders == [] then 0
    else Waiting(senders[..|senders| - 1]) + (if senders[|senders| - 1] == Sender(FromBackend, Passed) then 1 else 0)
  }

  lemma {:induction false} LimitedOfTail(queue: seq<Origin>)
    requires queue != []
    ensures Limited(queue[1..]) == Limited(queue) - (if queue[0].FromBackend? then 1 else 0)
    decreases |queue|
  {
    var n := |queue| - 1;
    if n > 0 {
      LimitedOfTail(queue[..n]);
      assert queue[..n][1..] == queue[1..][..n - 1];
    }
  }

  lemma LimitedOfMore(queue: seq<Origin>, x: Origin)
    ensures Limited(queue + [x]) == Limited(queue) + (if x.FromBackend? then 1 else 0)
  {
    assert (queue + [x])[..|queue|] == queue;
  }

  lemma {:induction false} LimitedBound(queue: seq<Origin>)
    ensures Limited(queue) <= |queue|
    decreases |queue|
  {
    if queue != [] {
      LimitedBound(queue[..|queue| - 1]);
    }
  }

  lemma {:induction false} NobodyCounting(senders: seq<Sender>)
    requires forall i :: 0 <= i < |senders| ==> senders[i].place.Idle?
    ensures Counting(senders) == Past(senders) == 0
    decreases |senders|
  {
    if senders != [] {
      NobodyCounting(senders[..|senders| - 1]);
    }
  }

  // ----- the invariant

  /** While the writer lives, the depth is the queue plus the messages being pushed or popped. */
  predicate DepthFits(s: State) {
    s.open ==> s.depth == |s.queue| + Counting(s.senders) + (if s.inHand then 1 else 0)
  }

  /** The limit, stretched by every sender but one slipping past the check together. */
  predicate Bounded(s: State) {
    s.limit.Some? ==>
      if s.limit.value == 0 then Limited(s.queue) == Past(s.senders) == 0
      else Limited(s.queue) + Past(s.senders) <= s.limit.value + Backends(s.senders) - 1
  }

  predicate Inv(s: State) {
    && DepthFits(s) && Bounded(s) && s.depth >= Counting(s.senders)
    && (!s.open ==> s.queue == [])
  }

  lemma CheckKeeps(s: State, i: nat)
    requires Inv(s) && Enabled(s, Check(i))
    ensures Inv(Apply(s, Check(i)))
  {
    if Below(s) {
      var x := Sender(FromBackend, Passed);
      OneSender(s.senders, i, x);
      var later := s.senders[i := x];
      CountsBound(later);
      LimitedBound(s.queue);
      hide Counting, Backends, Past, Waiting, Limited;
    }
  }

  lemma CountKeeps(s: State, i: nat)
    requires Inv(s) && Enabled(s, Count(i))
    ensures Inv(Apply(s, Count(i)))
  {
    hide Counting, Backends, Past, Waiting, Limited;
    OneSender(s.senders, i, s.senders[i].(place := Counted));
    CountsBound(s.senders);
  }

  lemma PushKeeps(s: State, i: nat)
    requires Inv(s) && Enabled(s, Push(i))
    ensures Inv(Apply(s, Push(i)))
  {
    hide Counting, Backends, Past, Waiting, Limited;
    OneSender(s.senders, i, s.senders[i].(place := Idle));
    LimitedOfMore(s.queue, s.senders[i].origin);
  }

  lemma PopKeeps(s: State)
    requires Inv(s) && Enabled(s, Pop)
    ensures Inv(Apply(s, Pop))
  {
    hide Counting, Backends, Past, Waiting, Limited;
    LimitedOfTail(s.queue);
  }

  lemma DieKeeps(s: State)
    requires Inv(s) && Enabled(s, Die)
    ensures Inv(Apply(s, Die))
  {
    hide Counting, Backends, Past, Waiting;
  }

  lemma StepKeeps(s: State, a: Action)
    requires Inv(s) && Enabled(s, a)
    ensures Inv(Apply(s, a))
  {
    hide Counting, Backends, Past, Waiting, Limited;
    match a
    case Check(i) => CheckKeeps(s, i);
    case Count(i) => CountKeeps(s, i);
    case Push(i) => PushKeeps(s, i);
    case Pop => PopKeeps(s);
    case Uncount =>
    case Die => DieKeeps(s);
  }

  lemma {:induction false} RunKeeps(s: State, acts: seq<Action>, t: State)
    requires Inv(s) && Run(s, acts, t)
    ensures Inv(t) && t.limit == s.limit && Backends(t.senders) == Backends(s.senders)
    decreases |acts|
  {
    hide Inv, Enabled, Backends;
    if acts != [] {
      StepKeeps(s, acts[0]);
      SameSenders(s, acts[0]);
      hide Apply;
      RunKeeps(Apply(s, acts[0]), acts[1..], t);
    }
  }

  lemma SameSenders(s: State, a: Action)
    requires Enabled(s, a)
    ensures Apply(s, a).limit == s.limit && Backends(Apply(s, a).senders) == Backends(s.senders)
  {
    if !a.Pop? && !a.Uncount? && !a.Die? {
      OneSender(s.senders, a.i, Apply(s, a).senders[a.i]);
    }
    hide Backends;
  }

  /**
    Over every run, with `k` client-originated senders and limit `L`: at most
    `L + k - 1` client-originated messages are queued, none when `L` is zero;
    while the writer lives the depth is never below zero when it is decremented,
    and it is exactly the queue's length when nobody is in the middle of a send
    or a dequeue.
   */
  lemma QueueIsBounded(i: State, acts: seq<Action>, s: State)
    requires Init(i) && Run(i, acts, s)
    ensures var k := Backends(i.senders);
      i.limit.Some? ==> Limited(s.queue) <= if i.limit.value == 0 || k == 0 then 0 else i.limit.value + k - 1
    ensures Enabled(s, Uncount) ==> s.depth >= 1
    ensures s.open && !s.inHand && (forall j :: 0 <= j < |s.senders| ==> s.senders[j].place.Idle?) ==>
      s.depth == |s.queue|
  {
    NobodyCounting(i.senders);
    if Backends(i.senders) == 0 {
      NoneWithoutBackends(i, acts, s);
    }
    RunKeeps(i, acts, s);
    CountsBound(s.senders);
    if forall j :: 0 <= j < |s.senders| ==> s.senders[j].place.Idle? {
      NobodyCounting(s.senders);
    }
    hide Counting, Backends, Past, Waiting, Limited, Run;
  }

  /** Without client-originated senders nothing of theirs is ever queued. */
  lemma {:induction false} NoneWithoutBackends(s: State, acts: seq<Action>, t: State)
    requires Run(s, acts, t) && Backends(s.senders) == 0 && Limited(s.queue) == 0
    ensures Limited(t.queue) == 0
    decreases |acts|
  {
    hide Backends, Limited;
    if acts != [] {
      SameSenders(s, acts[0]);
      NoneStep(s, acts[0]);
      hide Apply, Enabled;
      NoneWithoutBackends(Apply(s, acts[0]), acts[1..], t);
    }
  }

  lemma NoneStep(s: State, a: Action)
    requires Enabled(s, a) && Backends(s.senders) == 0 && Limited(s.queue) == 0
    ensures Limited(Apply(s, a).queue) == 0
  {
    if a.Push? {
      BackendCounts(s.senders, a.i);
      LimitedOfMore(s.queue, s.senders[a.i].origin);
    } else if a.Pop? {
      LimitedOfTail(s.queue);
    }
  }

  lemma {:induction false} BackendCounts(senders: seq<Sender>, i: nat)
    requires i < |senders|
    ensures senders[i].origin.FromBackend? ==> Backends(senders) > 0
    decreases |senders|
  {
    if i < |senders| - 1 {
      BackendCounts(senders[..|senders| - 1], i);
    }
  }

  // ----- the bound is reached

  function Backlog(m: nat): (r: seq<Origin>)
    ensures |r| == m && Limited(r) == m
  {
    if m == 0 then [] else
      assert (Backlog(m - 1) + [FromBackend])[..m - 1] == Backlog(m - 1);
      Backlog(m - 1) + [FromBackend]
  }

  /** `k` client-originated senders, the first `a` of them past the check. */
  function Party(k: nat, a: nat): (r: seq<Sender>)
    ensures |r| == k && forall i :: 0 <= i < k ==> r[i] == Sender(FromBackend, if i < a then Passed else Idle)
  {
    if k == 0 then [] else Party(k - 1, a) + [Sender(FromBackend, if k - 1 < a then Passed else Idle)]
  }

  function Busy(k: nat, limit: nat, m: nat, a: nat): State {
    State(Some(limit), m, Backlog(m), false, true, Party(k, a))
  }

  lemma OneCheck(k: nat, limit: nat, m: nat, a: nat)
    requires a < k && m < limit
    ensures Enabled(Busy(k, limit, m, a), Check(a))
    ensures Apply(Busy(k, limit, m, a), Check(a)) == Busy(k, limit, m, a + 1)
  {
    hide Backlog;
    assert Party(k, a)[a := Sender(FromBackend, Passed)] == Party(k, a + 1);
  }

  lemma OneSend(k: nat, limit: nat, m: nat, a: nat)
    requires a < k
    ensures Run(Busy(k, limit, m, a + 1), [Count(a), Push(a)], Busy(k, limit, m + 1, a))
  {
    var s := Busy(k, limit, m, a + 1);
    var t := Apply(s, Count(a));
    assert [Count(a), Push(a)][1..] == [Push(a)] && [Push(a)][1..] == [];
    assert Apply(t, Push(a)).senders == Party(k, a);
    assert Apply(t, Push(a)) == Busy(k, limit, m + 1, a);
    assert Run(t, [Push(a)], Busy(k, limit, m + 1, a));
  }

  lemma {:induction false} Concat(s: State, a: seq<Action>, t: State, b: seq<Action>, u: State)
    requires Run(s, a, t) && Run(t, b, u)
    ensures Run(s, a + b, u)
    decreases |a|
  {
    hide Enabled, Apply;
    if a == [] {
      assert a + b == b;
    } else {
      Concat(Apply(s, a[0]), a[1..], t, b, u);
      assert (a + b)[1..] == a[1..] + b;
    }
  }

  lemma CheckRun(k: nat, limit: nat, m: nat, a: nat)
    requires a < k && m < limit
    ensures Run(Busy(k, limit, m, a), [Check(a)], Busy(k, limit, m, a + 1))
  {
    OneCheck(k, limit, m, a);
    hide Busy, Enabled, Apply;
    assert [Check(a)][1..] == [];
  }

  /** One sender alone fills the queue to the limit. */
  lemma {:induction false} Fill(k: nat, limit: nat, m: nat) returns (acts: seq<Action>)
    requires 0 < k && m <= limit
    ensures Run(Busy(k, limit, 0, 0), acts, Busy(k, limit, m, 0))
  {
    hide Busy, Run;
    if m == 0 {
      acts := [];
      Nothing(Busy(k, limit, 0, 0));
    } else {
      var before := Fill(k, limit, m - 1);
      CheckRun(k, limit, m - 1, 0);
      OneSend(k, limit, m - 1, 0);
      Concat(Busy(k, limit, 0, 0), before, Busy(k, limit, m - 1, 0), [Check(0)], Busy(k, limit, m - 1, 1));
      acts := before + [Check(0)] + [Count(0), Push(0)];
      Concat(Busy(k, limit, 0, 0), before + [Check(0)], Busy(k, limit, m - 1, 1), [Count(0), Push(0)], Busy(k, limit, m, 0));
    }
  }

  lemma Nothing(s: State)
    ensures Run(s, [], s)
  {
  }

  /** Below the limit, `a` senders can pass the check before any of them counts. */
  lemma {:induction false} Gather(k: nat, limit: nat, m: nat, a: nat) returns (acts: seq<Action>)
    requires a <= k && m < limit
    ensures Run(Busy(k, limit, m, 0), acts, Busy(k, limit, m, a))
  {
    hide Busy, Run;
    if a == 0 {
      acts := [];
      Nothing(Busy(k, limit, m, 0));
    } else {
      var before := Gather(k, limit, m, a - 1);
      CheckRun(k, limit, m, a - 1);
      acts := before + [Check(a - 1)];
      Concat(Busy(k, limit, m, 0), before, Busy(k, limit, m, a - 1), [Check(a - 1)], Busy(k, limit, m, a));
    }
  }

  /** Then nothing stops them. */
  lemma {:induction false} Release(k: nat, limit: nat, m: nat, a: nat) returns (acts: seq<Action>)
    requires a <= k
    ensures Run(Busy(k, limit, m, a), acts, Busy(k, limit, m + a, 0))
    decreases a
  {
    hide Busy, Run;
    if a == 0 {
      acts := [];
      Nothing(Busy(k, limit, m, 0));
    } else {
      OneSend(k, limit, m, a - 1);
      var later := Release(k, limit, m + 1, a - 1);
      acts := [Count(a - 1), Push(a - 1)] + later;
      Concat(Busy(k, limit, m, a), [Count(a - 1), Push(a - 1)], Busy(k, limit, m + 1, a - 1), later, Busy(k, limit, m + a, 0));
    }
  }

  lemma BusyStarts(k: nat, limit: nat)
    ensures var i := Busy(k, limit, 0, 0); Init(i) && i.limit == Some(limit) && |i.senders| == k
  {
  }

  lemma BusyQueue(k: nat, limit: nat, m: nat)
    ensures Limited(Busy(k, limit, m, 0).queue) == m
  {
  }

  lemma Overfill(k: nat, limit: nat) returns (acts: seq<Action>)
    requires 0 < k && 0 < limit
    ensures Run(Busy(k, limit, 0, 0), acts, Busy(k, limit, limit + k - 1, 0))
  {
    hide Run, Busy;
    var fill := Fill(k, limit, limit - 1);
    var gather := Gather(k, limit, limit - 1, k);
    var release := Release(k, limit, limit - 1, k);
    var i, full, ready := Busy(k, limit, 0, 0), Busy(k, limit, limit - 1, 0), Busy(k, limit, limit - 1, k);
    Concat(i, fill, full, gather, ready);
    Concat(i, fill + gather, ready, release, Busy(k, limit, limit + k - 1, 0));
    acts := fill + gather + release;
  }

  /** The bound is exact: for every `k` and every positive limit some run queues `L + k - 1` messages. */
  lemma BoundIsReached(k: nat, limit: nat) returns (i: State, acts: seq<Action>, s: State)
    requires 0 < k && 0 < limit
    ensures Init(i) && i.limit == Some(limit) && |i.senders| == k
    ensures Run(i, acts, s) && Limited(s.queue) == limit + k - 1
  {
    hide Run, Busy, Init, Limited;
    i := Busy(k, limit, 0, 0);
    s := Busy(k, limit, limit + k - 1, 0);
    BusyStarts(k, limit);
    BusyQueue(k, limit, limit + k - 1);
    acts := Overfill(k, limit);
  }

  // ----- what is owed, and the order of it all

  /**
    A response the protocol owes is never held back: whatever the limit and the
    depth, it is counted and pushed, and while the writer lives it is queued.
   */
  lemma OwedIsNeverHeldBack(s: State, i: nat) returns (t: State)
    requires i < |s.senders| && s.senders[i] == Sender(Owed, Idle)
    ensures Run(s, [Count(i), Push(i)], t) && t.senders == s.senders && t.depth == s.depth + 1
    ensures t.queue == if s.open then s.queue + [Owed] else s.queue
  {
    var s1 := Apply(s, Count(i));
    t := Apply(s1, Push(i));
    assert t.senders == s.senders;
    assert [Count(i), Push(i)][1..] == [Push(i)] && [Push(i)][1..] == [];
    assert Run(s1, [Push(i)], t);
  }

  /** Client-originated traffic gets past the check exactly below the limit, and nothing else changes there. */
  lemma CheckedAtTheLimit(s: State, i: nat)
    requires Enabled(s, Check(i))
    ensures var t := Apply(s, Check(i));
      && t.queue == s.queue && t.depth == s.depth && t.open == s.open
      && (Enabled(t, Count(i)) <==> s.limit.None? || s.depth < s.limit.value)
      && (!Enabled(t, Count(i)) ==> t == s)
  {
  }

  /** The origins of the messages the steps push, in order. */
  function Pushed(senders: seq<Sender>, acts: seq<Action>): seq<Origin>
    decreases |acts|
  {
    if acts == [] then []
    else match acts[0]
      case Push(i) => (if i < |senders| then [senders[i].origin] else []) + Pushed(senders, acts[1..])
      case _ => Pushed(senders, acts[1..])
  }

  predicate SameOrigins(a: seq<Sender>, b: seq<Sender>) {
    |a| == |b| && forall i :: 0 <= i < |a| ==> a[i].origin == b[i].origin
  }

  lemma {:induction false} PushedAlike(a: seq<Sender>, b: seq<Sender>, acts: seq<Action>)
    requires SameOrigins(a, b)
    ensures Pushed(a, acts) == Pushed(b, acts)
    decreases |acts|
  {
    if acts != [] {
      PushedAlike(a, b, acts[1..]);
    }
  }

  lemma OriginsStay(s: State, a: Action)
    requires Enabled(s, a)
    ensures SameOrigins(s.senders, Apply(s, a).senders)
  {
  }

  lemma OneStepQueue(s: State, a: Action)
    requires Enabled(s, a) && a != Die && s.open
    ensures Apply(s, a).open
    ensures a.Push? ==> a.i < |s.senders| && Apply(s, a).queue == s.queue + [s.senders[a.i].origin]
    ensures a.Pop? ==> s.queue != [] && Apply(s, a).queue == s.queue[1..]
    ensures !a.Push? && !a.Pop? ==> Apply(s, a).queue == s.queue
  {
  }

  /** `all` without what was popped from its front. */
  predicate Left<T(==)>(all: seq<T>, popped: nat, queue: seq<T>) {
    popped <= |all| && queue == all[popped..]
  }

  lemma PushLeaves<T>(queue: seq<T>, x: T, later: seq<T>, popped: nat, now: seq<T>)
    requires Left(queue + [x] + later, popped, now)
    ensures Left(queue + ([x] + later), popped, now)
  {
    assert queue + ([x] + later) == queue + [x] + later;
  }

  lemma PopLeaves<T>(queue: seq<T>, later: seq<T>, popped: nat, now: seq<T>)
    requires queue != [] && Left(queue[1..] + later, popped, now)
    ensures Left(queue + later, popped + 1, now)
  {
    assert (queue + later)[1..] == queue[1..] + later;
  }

  lemma NothingLeaves<T>(queue: seq<T>)
    ensures Left(queue + [], 0, queue)
  {
    assert queue + [] == queue;
  }

  lemma CountFirst(acts: seq<Action>, a: Action)
    requires acts != []
    ensures multiset(acts)[a] == (if acts[0] == a then 1 else 0) + multiset(acts[1..])[a]
  {
    assert acts == [acts[0]] + acts[1..];
  }

  lemma PushedFirst(senders: seq<Sender>, acts: seq<Action>)
    requires acts != []
    ensures Pushed(senders, acts) ==
      if acts[0].Push? && acts[0].i < |senders| then [senders[acts[0].i].origin] + Pushed(senders, acts[1..])
      else Pushed(senders, acts[1..])
  {
  }

  /**
    First in, first out, and nothing lost: while the writer lives, the queue is
    what it was and what has been pushed since, in order, less what was popped
    from its front.
   */
  lemma {:induction false} QueueIsFifo(s: State, acts: seq<Action>, t: State)
    requires Run(s, acts, t) && s.open && Die !in acts
    ensures Left(s.queue + Pushed(s.senders, acts), multiset(acts)[Pop], t.queue) && t.open
    decreases |acts|
  {
    if acts == [] {
      NothingLeaves(s.queue);
    } else {
      var a, rest := acts[0], acts[1..];
      var next := Apply(s, a);
      OneStepQueue(s, a);
      OriginsStay(s, a);
      PushedAlike(s.senders, next.senders, rest);
      hide Enabled, Apply, SameOrigins, Left;
      QueueIsFifo(next, rest, t);
      CountFirst(acts, Pop);
      PushedFirst(s.senders, acts);
      hide Pushed;
      var later, popped := Pushed(s.senders, rest), multiset(rest)[Pop];
      if a.Push? {
        PushLeaves(s.queue, s.senders[a.i].origin, later, popped, t.queue);
      } else if a.Pop? {
        PopLeaves(s.queue, later, popped, t.queue);
      }
    }
  }
}
