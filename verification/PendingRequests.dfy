/**
  Requests from the server to the client (src/client.rs:118-189, 581-593): each
  call draws an id, registers a slot in the shared pending map, sends, and waits;
  responses, failed sends and timeouts race to take the slot out again.
 */
module PendingRequests {
  import opened Wrappers
  import J = JsonRpc

  type Payload = J.Json

  datatype Place =
    | Drawn                                 // has its id
    | Registered                            // its slot is in the map; to send
    | RollingBack                           // the send failed; to take its slot out
    | Awaiting
    | Expired                               // timed out; to take its slot out
    | Answered(payload: Payload)
    | Failed                                // the params did not serialize, or the send failed
    | GaveUp                                // after the timeout
    | Abandoned                             // the caller itself was dropped while it waited

  /** `slot`: what `resolve` put there for the caller to pick up. */
  datatype Caller = Caller(id: nat, place: Place, slot: Option<Payload>)

  /** Callers in the order they drew their ids. */
  datatype State = State(nextId: nat, callers: seq<Caller>, pending: map<nat, nat>)

  datatype Action =
    | Draw
    | NotSerializable(c: nat)
    | Insert(c: nat)
    | SendOk(c: nat)
    | SendFails(c: nat)
    | RollBack(c: nat)
    | PickUp(c: nat)
    | TimeOut(c: nat)
    | Withdraw(c: nat)
    | Abandon(c: nat)
    | Resolve(id: nat, payload: Payload)

  predicate Init(s: State) {
    s.nextId == 1 && s.callers == [] && s.pending == map[]
  }

  predicate At(s: State, c: nat, place: Place) {
    c < |s.callers| && s.callers[c].place == place
  }

  predicate Enabled(s: State, a: Action) {
    match a
    case Draw => true
    case NotSerializable(c) => At(s, c, Drawn)
    case Insert(c) => At(s, c, Drawn)
    case SendOk(c) => At(s, c, Registered)
    case SendFails(c) => At(s, c, Registered)
    case RollBack(c) => At(s, c, RollingBack)
    case PickUp(c) => At(s, c, Awaiting) && s.callers[c].slot.Some?
    case TimeOut(c) => At(s, c, Awaiting) && s.callers[c].slot.None?
    case Withdraw(c) => At(s, c, Expired)
    case Abandon(c) => At(s, c, Awaiting)
    case Resolve(_, _) => true
  }

  function Move(s: State, c: nat, place: Place): State
    requires c < |s.callers|
  {
    s.(callers := s.callers[c := s.callers[c].(place := place)])
  }

  function Apply(s: State, a: Action): State
    requires Enabled(s, a)
  {
    match a
    case Draw => s.(nextId := s.nextId + 1, callers := s.callers + [Caller(s.nextId, Drawn, None)])
    case NotSerializable(c) => Move(s, c, Failed)
    case Insert(c) => Move(s, c, Registered).(pending := s.pending[s.callers[c].id := c])
    case SendOk(c) => Move(s, c, Awaiting)
    case SendFails(c) => Move(s, c, RollingBack)
    case RollBack(c) => Move(s, c, Failed).(pending := s.pending - {s.callers[c].id})
    case PickUp(c) => Move(s, c, Answered(s.callers[c].slot.value))
    case TimeOut(c) => Move(s, c, Expired)
    case Withdraw(c) => Move(s, c, GaveUp).(pending := s.pending - {s.callers[c].id})
    case Abandon(c) => Move(s, c, Abandoned)
    case Resolve(id, payload) =>
      if id in s.pending then Fill(s.(pending := s.pending - {id}), s.pending[id], payload) else s
  }

  /** Put the response in the caller's slot, unless there is no such caller. */
  function Fill(s: State, c: nat, payload: Payload): State {
    if c < |s.callers| then s.(callers := s.callers[c := s.callers[c].(slot := Some(payload))]) else s
  }

  predicate Run(s: State, acts: seq<Action>, t: State)
    decreases |acts|
  {
    if acts == [] then s == t
    else Enabled(s, acts[0]) && Run(Apply(s, acts[0]), acts[1..], t)
  }

  // ----- the pending map

  /** Registered, and neither resolved nor withdrawn. */
  predicate Open(x: Caller) {
    && x.slot.None?
    && (x.place.Registered? || x.place.RollingBack? || x.place.Awaiting? || x.place.Expired? || x.place.Abandoned?)
  }

  ghost predicate PendingOpen(s: State) {
    forall id :: id in s.pending ==>
      s.pending[id] < |s.callers| && s.callers[s.pending[id]].id == id && Open(s.callers[s.pending[id]])
  }

  ghost predicate OpenPending(s: State) {
    forall c :: 0 <= c < |s.callers| ==>
      (Open(s.callers[c]) ==> s.callers[c].id in s.pending && s.pending[s.callers[c].id] == c)
  }

  /** Ids count from one in the order of drawing, so no two calls share one. */
  ghost predicate IdsFit(s: State) {
    && s.nextId == |s.callers| + 1
    && forall c :: 0 <= c < |s.callers| ==> s.callers[c].id == c + 1 && SlotFits(s.callers[c])
  }

  predicate SlotFits(x: Caller) {
    && (x.place.Answered? ==> x.slot == Some(x.place.payload))
    && (x.place.Drawn? ==> x.slot.None?)
  }

  ghost predicate Inv(s: State) {
    PendingOpen(s) && OpenPending(s) && IdsFit(s)
  }

  lemma PendingStep(s: State, a: Action)
    requires Inv(s) && Enabled(s, a)
    ensures PendingOpen(Apply(s, a))
  {
  }

  lemma OpenStep(s: State, a: Action)
    requires Inv(s) && Enabled(s, a)
    ensures OpenPending(Apply(s, a))
  {
  }

  lemma IdsStep(s: State, a: Action)
    requires Inv(s) && Enabled(s, a)
    ensures IdsFit(Apply(s, a))
  {
    hide OpenPending;
  }

  lemma StepKeeps(s: State, a: Action)
    requires Inv(s) && Enabled(s, a)
    ensures Inv(Apply(s, a))
  {
    PendingStep(s, a);
    OpenStep(s, a);
    IdsStep(s, a);
    hide PendingOpen, OpenPending, IdsFit, Apply, Enabled;
  }

  lemma {:induction false} RunKeeps(s: State, acts: seq<Action>, t: State)
    requires Inv(s) && Run(s, acts, t)
    ensures Inv(t)
    decreases |acts|
  {
    hide Inv, Enabled, Apply;
    if acts != [] {
      StepKeeps(s, acts[0]);
      RunKeeps(Apply(s, acts[0]), acts[1..], t);
    }
  }

  lemma ReachedSound(i: State, acts: seq<Action>, s: State)
    requires Init(i) && Run(i, acts, s)
    ensures Inv(s)
  {
    RunKeeps(i, acts, s);
  }

  /** Over every run, the map holds exactly the calls that are registered and unresolved, each under its own id. */
  lemma PendingIsExact(i: State, acts: seq<Action>, s: State)
    requires Init(i) && Run(i, acts, s)
    ensures forall c :: 0 <= c < |s.callers| ==>
      (Open(s.callers[c]) <==> s.callers[c].id in s.pending && s.pending[s.callers[c].id] == c)
    ensures forall id :: id in s.pending ==> s.pending[id] < |s.callers| && s.callers[s.pending[id]].id == id
    ensures forall c, d :: 0 <= c < d < |s.callers| ==> s.callers[c].id != s.callers[d].id
  {
    ReachedSound(i, acts, s);
    hide Run;
  }

  predicate Over(x: Caller) {
    x.place.Answered? || x.place.Failed? || x.place.GaveUp? || x.place.Abandoned?
  }

  /** When every call is over, what is left in the map is exactly the abandoned calls nobody answered. */
  lemma OnlyAbandonedCallsLeak(i: State, acts: seq<Action>, s: State)
    requires Init(i) && Run(i, acts, s) && forall c :: 0 <= c < |s.callers| ==> Over(s.callers[c])
    ensures s.pending == map[] <==>
      forall c :: 0 <= c < |s.callers| && s.callers[c].place.Abandoned? ==> s.callers[c].slot.Some?
  {
    ReachedSound(i, acts, s);
    hide Run, IdsFit;
    if forall c :: 0 <= c < |s.callers| && s.callers[c].place.Abandoned? ==> s.callers[c].slot.Some? {
      assert forall id :: id !in s.pending;
    }
  }

  // ----- responses

  /**
    A response reaches the caller that drew its id and nobody else, and only if
    the call is still open; any other response changes nothing.
   */
  lemma ResponseFindsItsCaller(i: State, acts: seq<Action>, s: State, id: nat, payload: Payload)
    requires Init(i) && Run(i, acts, s)
    ensures var t := Apply(s, Resolve(id, payload));
      forall c :: 0 <= c < |s.callers| ==>
        t.callers[c] == if s.callers[c].id == id && Open(s.callers[c]) then s.callers[c].(slot := Some(payload))
                        else s.callers[c]
    ensures Apply(s, Resolve(id, payload)).pending == s.pending - {id}
  {
    ReachedSound(i, acts, s);
    hide Run;
  }

  lemma SlotStep(s: State, a: Action, c: nat)
    requires Inv(s) && Enabled(s, a) && c < |s.callers|
    ensures c < |Apply(s, a).callers|
    ensures var x := s.callers[c]; var y := Apply(s, a).callers[c];
      && y.id == x.id && (x.slot.Some? ==> y.slot == x.slot)
      && (x.place.Answered? ==> y == x)
      && (x.slot.None? && y.slot.Some? ==> a == Resolve(x.id, y.slot.value))
  {
  }

  /**
    A call is answered at most once, with a payload that arrived under its own
    id: once a slot is filled it stays as it is, whatever arrives later.
   */
  lemma {:induction false} AnswersStay(s: State, acts: seq<Action>, t: State, c: nat)
    requires Inv(s) && Run(s, acts, t) && c < |s.callers|
    ensures c < |t.callers| && t.callers[c].id == s.callers[c].id
    ensures s.callers[c].slot.Some? ==> t.callers[c].slot == s.callers[c].slot
    ensures s.callers[c].place.Answered? ==> t.callers[c] == s.callers[c]
    ensures s.callers[c].slot.None? && t.callers[c].slot.Some? ==> Resolve(t.callers[c].id, t.callers[c].slot.value) in acts
    decreases |acts|
  {
    hide Inv, Enabled, Apply;
    if acts != [] {
      StepKeeps(s, acts[0]);
      SlotStep(s, acts[0], c);
      AnswersStay(Apply(s, acts[0]), acts[1..], t, c);
    }
  }

  /** So what an answered call returns is the payload of a response to its own id. */
  lemma AnsweredByItsOwnResponse(i: State, acts: seq<Action>, s: State, c: nat)
    requires Init(i) && Run(i, acts, s) && c < |s.callers| && s.callers[c].place.Answered?
    ensures Resolve(s.callers[c].id, s.callers[c].place.payload) in acts
  {
    ReachedSound(i, acts, s);
    hide Run, PendingOpen, OpenPending;
    assert SlotFits(s.callers[c]);
    assert s.callers[c].slot == Some(s.callers[c].place.payload);
    AnswerArrived(i, acts, s, c);
  }

  lemma {:induction false} AnswerArrived(s: State, acts: seq<Action>, t: State, c: nat)
    requires Inv(s) && Run(s, acts, t) && |s.callers| <= c < |t.callers| && t.callers[c].slot.Some?
    ensures Resolve(t.callers[c].id, t.callers[c].slot.value) in acts
    decreases |acts|
  {
    var next := Apply(s, acts[0]);
    StepKeeps(s, acts[0]);
    if c < |next.callers| {
      assert next.callers[c].slot.None?;
      hide Inv, Enabled, Apply;
      AnswersStay(next, acts[1..], t, c);
    } else {
      hide Inv, Enabled, Apply;
      AnswerArrived(next, acts[1..], t, c);
    }
  }

  /** A waiting call whose response has come either picks it up or is dropped; it no longer times out. */
  predicate Settling(x: Caller) {
    x.slot.Some? && (x.place.Awaiting? || x.place.Answered? || x.place.Abandoned?)
  }

  lemma SettlingStep(s: State, a: Action, c: nat)
    requires Inv(s) && Enabled(s, a) && c < |s.callers| && Settling(s.callers[c])
    ensures c < |Apply(s, a).callers| && Settling(Apply(s, a).callers[c])
  {
  }

  lemma {:induction false} AnswerBeatsTimeout(s: State, acts: seq<Action>, t: State, c: nat)
    requires Inv(s) && Run(s, acts, t) && c < |s.callers| && s.callers[c].slot.Some?
    requires s.callers[c].place.Awaiting? || s.callers[c].place.Answered? || s.callers[c].place.Abandoned?
    ensures c < |t.callers|
    ensures t.callers[c].place.Awaiting? || t.callers[c].place.Answered? || t.callers[c].place.Abandoned?
    decreases |acts|
  {
    hide Inv, Enabled, Apply;
    if acts != [] {
      StepKeeps(s, acts[0]);
      SettlingStep(s, acts[0], c);
      AnswerBeatsTimeout(Apply(s, acts[0]), acts[1..], t, c);
    }
  }

  /** What must have happened to a call for it to be where it is. */
  predicate Because(place: Place, c: nat, past: seq<Action>) {
    match place
    case RollingBack => SendFails(c) in past
    case Failed => NotSerializable(c) in past || SendFails(c) in past
    case Expired => TimeOut(c) in past
    case GaveUp => TimeOut(c) in past
    case Abandoned => Abandon(c) in past
    case _ => true
  }

  ghost predicate AllBecause(s: State, past: seq<Action>) {
    forall c :: 0 <= c < |s.callers| ==> Because(s.callers[c].place, c, past)
  }

  lemma WhyStep(s: State, a: Action, past: seq<Action>)
    requires Enabled(s, a) && AllBecause(s, past)
    ensures AllBecause(Apply(s, a), past + [a])
  {
    assert forall b :: b in past ==> b in past + [a];
    assert a in past + [a];
  }

  lemma {:induction false} RunWhy(s: State, acts: seq<Action>, t: State, past: seq<Action>)
    requires Run(s, acts, t) && AllBecause(s, past)
    ensures AllBecause(t, past + acts)
    decreases |acts|
  {
    hide Enabled, Apply, AllBecause;
    if acts == [] {
      assert past + acts == past;
    } else {
      WhyStep(s, acts[0], past);
      RunWhy(Apply(s, acts[0]), acts[1..], t, past + [acts[0]]);
      assert past + [acts[0]] + acts[1..] == past + acts;
    }
  }

  /** Why a call ended without an answer: its params or its send failed, it timed out, or its caller was dropped. */
  lemma EndsForItsOwnReason(i: State, acts: seq<Action>, s: State, c: nat)
    requires Init(i) && Run(i, acts, s) && c < |s.callers|
    ensures s.callers[c].place.Failed? ==> NotSerializable(c) in acts || SendFails(c) in acts
    ensures s.callers[c].place.GaveUp? ==> TimeOut(c) in acts
    ensures s.callers[c].place.Abandoned? ==> Abandon(c) in acts
  {
    RunWhy(i, acts, s, []);
    assert [] + acts == acts;
    hide Run;
    assert Because(s.callers[c].place, c, acts);
  }

  /** The leak happens: a call dropped while it waits stays in the map. */
  lemma AbandonedCallStays()
    ensures exists i, acts, s :: Init(i) && Run(i, acts, s) && Leaked(s)
  {
    var i := State(1, [], map[]);
    var acts := [Draw, Insert(0), SendOk(0), Abandon(0)];
    var s1 := Apply(i, Draw);
    var s2 := Apply(s1, Insert(0));
    var s3 := Apply(s2, SendOk(0));
    var s := Apply(s3, Abandon(0));
    assert acts[1..] == [Insert(0), SendOk(0), Abandon(0)];
    assert acts[1..][1..] == [SendOk(0), Abandon(0)];
    assert acts[1..][1..][1..] == [Abandon(0)];
    assert [Abandon(0)][1..] == [];
    assert Run(s3, [Abandon(0)], s);
    assert Run(s2, [SendOk(0), Abandon(0)], s);
    assert Run(s1, acts[1..], s);
    assert Run(i, acts, s);
    assert Leaked(s);
    hide Run, Apply, Enabled;
  }

  predicate Leaked(s: State) {
    |s.callers| == 1 && Over(s.callers[0]) && s.pending == map[1 := 0]
  }
}
