/**
  Where every request is (src/server.rs:547-551, 606-703, 739-759): in the
  loop's hands, in flight, claimed but not sent, answered, or drained by the
  teardown, and in exactly one of these places.
 */
module RuntimeAccounts {
  import opened Runtime
  import M = RuntimeMutex
  import D = Documents

  /** Count one request, or every request that carries one id. */
  datatype Scale = OneRequest(r: nat) | OneId(id: Id)

  function Weight(w: Scale, r: nat, id: Id): nat {
    match w
    case OneRequest(r0) => if r == r0 then 1 else 0
    case OneId(id0) => if id == id0 then 1 else 0
  }

  function Received(w: Scale, requests: seq<Request>): nat {
    if requests == [] then 0
    else
      var n := |requests| - 1;
      Received(w, requests[..n]) + Weight(w, n, requests[n].id)
  }

  function Sent(w: Scale, answers: seq<Answer>): nat {
    if answers == [] then 0
    else
      var n := |answers| - 1;
      Sent(w, answers[..n]) + Weight(w, answers[n].owner, answers[n].id)
  }

  function ClaimOf(w: Scale, q: Request): nat {
    if q.pc.Claimed? then Weight(w, q.pc.owner, q.id) else 0
  }

  /** Claimed by a task that has not sent the answer yet. */
  function Unsent(w: Scale, requests: seq<Request>): nat {
    if requests == [] then 0
    else
      var n := |requests| - 1;
      Unsent(w, requests[..n]) + ClaimOf(w, requests[n])
  }

  function Drained(w: Scale, drained: seq<Entry>): nat {
    if drained == [] then 0
    else
      var n := |drained| - 1;
      Drained(w, drained[..n]) + Weight(w, drained[n].owner, drained[n].id)
  }

  function InMap(w: Scale, requests: seq<Request>, inFlight: map<Id, nat>): nat {
    match w
    case OneRequest(r) =>
      if r < |requests| && requests[r].id in inFlight && inFlight[requests[r].id] == r then 1 else 0
    case OneId(id) => if id in inFlight then 1 else 0
  }

  /** In the loop's hands: being set up, spawned, refused, or cancelled. */
  function InLoop(w: Scale, requests: seq<Request>, loop: Loop): nat {
    match loop
    case Initializing(r) => OfRequest(w, requests, r)
    case ShutdownWait(r) => OfRequest(w, requests, r)
    case ShuttingDown(r) => OfRequest(w, requests, r)
    case SpawnWait(r) => OfRequest(w, requests, r)
    case SpawnHeld(r) => OfRequest(w, requests, r)
    case Refusing(r) => OfRequest(w, requests, r)
    case Registering(r) => OfRequest(w, requests, r)
    case CancelRemoved(id, r) => Weight(w, r, id)
    case CancelTripped(id, r) => Weight(w, r, id)
    case CancelAborted(id, r) => Weight(w, r, id)
    case _ => 0
  }

  function OfRequest(w: Scale, requests: seq<Request>, r: nat): nat {
    if r < |requests| then Weight(w, r, requests[r].id) else 0
  }

  predicate Balanced(w: Scale, s: State) {
    Received(w, s.requests) ==
      Sent(w, s.answers) + InMap(w, s.requests, s.inFlight) + Unsent(w, s.requests)
      + Drained(w, s.drained) + InLoop(w, s.requests, s.loop)
  }

  // ----- sums over changed sequences

  lemma OneMoreRequest(w: Scale, requests: seq<Request>, q: Request)
    ensures Received(w, requests + [q]) == Received(w, requests) + Weight(w, |requests|, q.id)
    ensures Unsent(w, requests + [q]) == Unsent(w, requests) + ClaimOf(w, q)
  {
    assert (requests + [q])[..|requests|] == requests;
  }

  lemma OneMoreAnswer(w: Scale, answers: seq<Answer>, a: Answer)
    ensures Sent(w, answers + [a]) == Sent(w, answers) + Weight(w, a.owner, a.id)
  {
    assert (answers + [a])[..|answers|] == answers;
  }

  lemma OneMoreDrained(w: Scale, drained: seq<Entry>, e: Entry)
    ensures Drained(w, drained + [e]) == Drained(w, drained) + Weight(w, e.owner, e.id)
  {
    assert (drained + [e])[..|drained|] == drained;
  }

  lemma {:induction false} OneChangedRequest(w: Scale, requests: seq<Request>, u: nat, q: Request)
    requires u < |requests| && q.id == requests[u].id
    ensures Received(w, requests[u := q]) == Received(w, requests)
    ensures Unsent(w, requests[u := q]) + ClaimOf(w, requests[u]) == Unsent(w, requests) + ClaimOf(w, q)
    decreases |requests|
  {
    hide ClaimOf, Weight;
    var n := |requests| - 1;
    if u < n {
      OneChangedRequest(w, requests[..n], u, q);
      assert requests[u := q][..n] == requests[..n][u := q];
    } else {
      assert requests[u := q][..n] == requests[..n];
    }
  }

  /** Taking an entry out of the map moves exactly its own weight. */
  lemma OneEntryLess(w: Scale, s: State, id: Id)
    requires M.Inv(s) && id in s.inFlight
    ensures InMap(w, s.requests, s.inFlight) ==
      InMap(w, s.requests, s.inFlight - {id}) + Weight(w, s.inFlight[id], id)
  {
    hide M.Exclusive, M.LoopSound, M.TokensFirst;
  }

  /** The map's weight depends on the ids alone. */
  lemma SameIds(w: Scale, requests: seq<Request>, u: nat, q: Request, inFlight: map<Id, nat>)
    requires u < |requests| && q.id == requests[u].id
    ensures InMap(w, requests[u := q], inFlight) == InMap(w, requests, inFlight)
    ensures forall loop :: InLoop(w, requests[u := q], loop) == InLoop(w, requests, loop)
  {
  }

  // ----- every step balances

  lemma NewRequestNotInMap(w: Scale, s: State, q: Request)
    requires M.MapSound(s)
    ensures InMap(w, s.requests + [q], s.inFlight) == InMap(w, s.requests, s.inFlight)
  {
  }

  /** A request just received is either answered at once or in the loop's hands. */
  lemma ReceiveBalances(w: Scale, s: State, id: Id, kind: Kind, work: nat)
    requires M.MapSound(s) && s.loop.Reading? && Balanced(w, s)
    ensures Balanced(w, Receive(s, id, kind, work))
  {
    hide Received, Sent, Unsent, Drained, InMap, M.MapSound;
    var t := Receive(s, id, kind, work);
    var n := |s.requests|;
    OneMoreRequest(w, s.requests, t.requests[n]);
    NewRequestNotInMap(w, s, t.requests[n]);
    if t.loop.Reading? {
      OneMoreAnswer(w, s.answers, t.answers[|s.answers|]);
    }
  }

  lemma InputBalances(w: Scale, s: State, a: InputStep)
    requires M.Inv(s) && CanInput(s, a) && Balanced(w, s)
    ensures Balanced(w, Input(s, a))
  {
    if a.ReadRequest? {
      ReceiveBalances(w, s, a.id, a.kind, a.work);
    }
    hide Receive, Received, Sent, Unsent, Drained, InMap, M.Inv;
  }

  lemma SetupBalances(w: Scale, s: State, a: SetupStep)
    requires CanSetup(s, a) && Balanced(w, s)
    ensures Balanced(w, Setup(s, a))
  {
    hide Received, Sent, Unsent, Drained, InMap;
    var t := Setup(s, a);
    if !a.ShutdownProceeds? {
      OneMoreAnswer(w, s.answers, t.answers[|s.answers|]);
    }
  }

  lemma SpawnBalances(w: Scale, s: State, a: SpawnStep)
    requires M.Inv(s) && CanSpawn(s, a) && Balanced(w, s)
    ensures Balanced(w, Spawn(s, a))
  {
    hide Received, Sent, Unsent, Drained, M.Exclusive, M.MapSound, M.TokensFirst;
    var t := Spawn(s, a);
    match a {
      case SendRefusal => OneMoreAnswer(w, s.answers, t.answers[|s.answers|]);
      case StartTask =>
        var r := s.loop.r;
        OneChangedRequest(w, s.requests, r, t.requests[r]);
        SameIds(w, s.requests, r, t.requests[r], s.inFlight);
      case _ =>
    }
  }

  lemma CancelBalances(w: Scale, s: State, a: CancelStep)
    requires M.Inv(s) && CanCancel(s, a) && Balanced(w, s)
    ensures Balanced(w, Cancel(s, a))
  {
    hide Received, Sent, Unsent, Drained, M.Inv;
    var t := Cancel(s, a);
    match a {
      case LookUp =>
        if s.loop.id in s.inFlight {
          OneEntryLess(w, s, s.loop.id);
        }
        hide InMap;
      case AnswerCancelled =>
        hide InMap;
        OneMoreAnswer(w, s.answers, t.answers[|s.answers|]);
      case LockForCancel =>
      case _ =>
        var r := s.loop.r;
        OneChangedRequest(w, s.requests, r, t.requests[r]);
        SameIds(w, s.requests, r, t.requests[r], s.inFlight);
    }
  }

  lemma TearBalances(w: Scale, s: State, a: TearStep)
    requires M.Inv(s) && CanTear(s, a) && Balanced(w, s)
    ensures Balanced(w, Tear(s, a))
  {
    hide Received, Sent, Unsent, Drained, M.Inv;
    var t := Tear(s, a);
    match a {
      case Take(id) =>
        OneEntryLess(w, s, id);
        OneMoreDrained(w, s.drained, Entry(id, s.inFlight[id]));
        hide InMap;
      case TripTaken =>
        OneChangedRequest(w, s.requests, s.loop.r, t.requests[s.loop.r]);
        SameIds(w, s.requests, s.loop.r, t.requests[s.loop.r], s.inFlight);
      case AbortTaken =>
        OneChangedRequest(w, s.requests, s.loop.r, t.requests[s.loop.r]);
        SameIds(w, s.requests, s.loop.r, t.requests[s.loop.r], s.inFlight);
      case _ =>
    }
  }

  /** What a task step adds to the claims, the answers and the map. */
  lemma TaskMoves(w: Scale, s: State, u: nat, a: TaskStep)
    requires M.Inv(s) && CanTask(s, u, a)
    ensures var t := Task(s, u, a);
      Sent(w, t.answers) + InMap(w, s.requests, t.inFlight) + ClaimOf(w, Stepped(s, u, a))
      == Sent(w, s.answers) + InMap(w, s.requests, s.inFlight) + ClaimOf(w, s.requests[u])
  {
    hide D.Step, M.Inv, Sent;
    var q := s.requests[u];
    match a {
      case RemoveEntry =>
        if q.id in s.inFlight {
          OneEntryLess(w, s, q.id);
        } else {
          assert s.inFlight - {q.id} == s.inFlight;
        }
        hide InMap;
      case Send =>
        OneMoreAnswer(w, s.answers, Answer(q.id, q.pc.owner, Handler(u, q.pc.outcome)));
      case _ =>
    }
  }

  lemma TaskBalances(w: Scale, s: State, u: nat, a: TaskStep)
    requires M.Inv(s) && CanTask(s, u, a) && Balanced(w, s)
    ensures Balanced(w, Task(s, u, a))
  {
    M.TaskFrame(s, u, a);
    M.StepFrame(s, u, a);
    TaskMoves(w, s, u, a);
    var q := Stepped(s, u, a);
    OneChangedRequest(w, s.requests, u, q);
    SameIds(w, s.requests, u, q, Task(s, u, a).inFlight);
    hide Task, Stepped, CanTask, Received, Sent, Unsent, Drained, InMap, InLoop, ClaimOf, M.Inv, M.BeforeRemoval;
  }

  lemma StepBalances(w: Scale, s: State, a: Action)
    requires M.Inv(s) && Enabled(s, a) && Balanced(w, s)
    ensures Balanced(w, Apply(s, a))
  {
    hide Input, Setup, Spawn, Cancel, Tear, Work, Task;
    hide CanInput, CanSetup, CanSpawn, CanCancel, CanTear, CanWork, CanTask;
    hide M.Inv, Received, Sent, Unsent, Drained, InMap, InLoop;
    match a
    case FromClient(b) => InputBalances(w, s, b);
    case InSetup(b) => SetupBalances(w, s, b);
    case InSpawn(b) => SpawnBalances(w, s, b);
    case InCancel(b) => CancelBalances(w, s, b);
    case InTeardown(b) => TearBalances(w, s, b);
    case InWorker(b) =>
    case InTask(u, b) => TaskBalances(w, s, u, b);
  }

  lemma {:induction false} RunBalances(w: Scale, s: State, acts: seq<Action>, t: State)
    requires M.Inv(s) && Balanced(w, s) && Run(s, acts, t)
    ensures Balanced(w, t)
    decreases |acts|
  {
    hide M.Inv, Enabled, Apply, Balanced;
    if acts != [] {
      M.StepKeeps(s, acts[0]);
      StepBalances(w, s, acts[0]);
      RunBalances(w, Apply(s, acts[0]), acts[1..], t);
    }
  }

  /** Conservation: in every reachable state of every interleaving, per request and per id. */
  lemma Conservation(w: Scale, s: State)
    requires Reachable(s)
    ensures Received(w, s.requests) ==
      Sent(w, s.answers) + InMap(w, s.requests, s.inFlight) + Unsent(w, s.requests)
      + Drained(w, s.drained) + InLoop(w, s.requests, s.loop)
  {
    hide M.Inv, Run;
    var i, acts :| Init(i) && Run(i, acts, s);
    M.InitInv(i);
    RunBalances(w, i, acts, s);
  }

  /** Between two messages the loop holds nothing, and the account has its four plain entries. */
  lemma ConservationWhileReading(id: Id, s: State)
    requires Reachable(s) && (s.loop.Reading? || s.loop.Grace? || s.loop.Over?)
    ensures Received(OneId(id), s.requests) ==
      Sent(OneId(id), s.answers) + (if id in s.inFlight then 1 else 0)
      + Unsent(OneId(id), s.requests) + Drained(OneId(id), s.drained)
  {
    Conservation(OneId(id), s);
    hide Reachable, Received, Sent, Unsent, Drained;
  }

  lemma {:induction false} ReceivedOnce(r: nat, requests: seq<Request>)
    ensures Received(OneRequest(r), requests) == if r < |requests| then 1 else 0
    decreases |requests|
  {
    if requests != [] {
      ReceivedOnce(r, requests[..|requests| - 1]);
    }
  }

  /** Every request received is in exactly one place, so it is answered at most once, and never after being drained. */
  lemma ExactlyOnePlace(s: State, r: nat)
    requires Reachable(s) && r < |s.requests|
    ensures Sent(OneRequest(r), s.answers) + InMap(OneRequest(r), s.requests, s.inFlight)
      + Unsent(OneRequest(r), s.requests) + Drained(OneRequest(r), s.drained)
      + InLoop(OneRequest(r), s.requests, s.loop) == 1
  {
    Conservation(OneRequest(r), s);
    ReceivedOnce(r, s.requests);
    hide Reachable, Received, Sent, Unsent, Drained, InMap, InLoop;
  }

  lemma {:induction false} AnswersCount(r: nat, answers: seq<Answer>, i: nat)
    requires i < |answers| && answers[i].owner == r
    ensures Sent(OneRequest(r), answers) >= 1
    ensures forall j :: i < j < |answers| && answers[j].owner == r ==> Sent(OneRequest(r), answers) >= 2
    decreases |answers|
  {
    var n := |answers| - 1;
    if i < n {
      AnswersCount(r, answers[..n], i);
      assert forall j :: i < j < n ==> answers[..n][j] == answers[j];
    }
  }

  /** No two answers ever settle the same request, and an answered request is nowhere else. */
  lemma AnsweredOnce(s: State, i: nat, j: nat)
    requires Reachable(s) && i < j < |s.answers| && s.answers[i].owner < |s.requests|
    ensures s.answers[i].owner != s.answers[j].owner
    ensures !M.InFlight(s, s.answers[i].owner)
  {
    var r := s.answers[i].owner;
    ExactlyOnePlace(s, r);
    AnswersCount(r, s.answers, i);
    hide Reachable, Sent, Unsent, Drained, InLoop;
  }

  /**
    A handler's answer is never lost: when a task looks for its entry, either the
    entry is there, or the request is settled already.
   */
  lemma ClaimLosesNothing(s: State, u: nat)
    requires Reachable(s) && CanTask(s, u, RemoveEntry)
    ensures M.InFlight(s, u) <==>
      Sent(OneRequest(u), s.answers) + Unsent(OneRequest(u), s.requests) + Drained(OneRequest(u), s.drained) == 0
  {
    ExactlyOnePlace(s, u);
    M.ReachableSound(s);
    hide Reachable, Received, Sent, Unsent, Drained, M.MapSound, M.TokensFirst;
  }
}
