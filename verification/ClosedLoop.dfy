/** The closed loop: `KVClientTable` workers, first-in first-out channels and several SSP
    servers, as a state machine over every interleaving.

    A worker's calls put all their messages into the channels in one step. Channels are
    per worker and server and delivery is arbitrarily late, so this has every interleaving
    of a client that pushes them one by one. */
module ClosedLoop {
  import opened Messages
  import opened MachineInts
  import opened ProgressTracking
  import opened PendingMessages
  import opened KeyValueStorage
  import opened SspModel
  import opened SspGuarantees

  /** `clock` counts calls of `Clock`; `waiting` are the servers whose reply the current
      `Get` still waits for; `read` are those asked since the last `Clock`; `out` are the
      channels; `seen` counts the Get replies received from each server. */
  datatype Worker = Worker(clock: nat, waiting: set<Tid>, read: set<Tid>,
                           out: map<Tid, seq<Message>>, seen: map<Tid, nat>)

  datatype System = System(modelId: int, staleness: int, workers: map<Tid, Worker>, servers: map<Tid, Ssp>)

  datatype Event =
    | CallGet(w: Tid, slices: map<Tid, seq<Key>>)
    | CallAdd(w: Tid, parts: map<Tid, (seq<Key>, seq<Val>)>)
    | CallClock(w: Tid)
    | Deliver(w: Tid, sid: Tid)
    | Receive(w: Tid, sid: Tid)

  function From(w: Tid): Message -> bool {
    (m: Message) => m.sender == w
  }

  function IsGet(): Message -> bool {
    (m: Message) => m.op.Get?
  }

  function IsClock(): Message -> bool {
    (m: Message) => m.op.Clock?
  }

  /** Get replies that server `s` has sent to `w`. */
  function RepliesTo(s: Ssp, w: Tid): nat {
    CountAnswered(s.replies, From(w))
  }

  /** A worker inside `Get` is blocked; all its other calls return at once. */
  predicate Enabled(y: System, e: Event) {
    && e.w in y.workers
    && match e
       case CallGet(w, slices) => y.workers[w].waiting == {} && slices.Keys <= y.workers[w].out.Keys
       case CallAdd(w, parts) =>
         && y.workers[w].waiting == {} && parts.Keys <= y.workers[w].out.Keys
         && forall sid :: sid in parts ==> |parts[sid].0| == |parts[sid].1|
       case CallClock(w) => y.workers[w].waiting == {}
       case Deliver(w, sid) =>
         && sid in y.servers && sid in y.workers[w].out && y.workers[w].out[sid] != []
         && Allowed(y.servers[sid], y.workers[w].out[sid][0]) && y.servers[sid].HoldsWellFormed()
       case Receive(w, sid) =>
         && sid in y.servers && sid in y.workers[w].seen
         && RepliesTo(y.servers[sid], w) > y.workers[w].seen[sid]
  }

  function AfterWorker(k: Worker, y: System, e: Event): Worker
    requires Enabled(y, e) && k == y.workers[e.w]
  {
    match e
    case CallGet(w, slices) =>
      k.(waiting := slices.Keys, read := k.read + slices.Keys,
         out := map sid | sid in k.out ::
           if sid in slices then k.out[sid] + [Message(w, sid, y.modelId, Get(slices[sid]))] else k.out[sid])
    case CallAdd(w, parts) =>
      k.(out := map sid | sid in k.out ::
           if sid in parts then k.out[sid] + [Message(w, sid, y.modelId, Add(parts[sid].0, parts[sid].1))]
           else k.out[sid])
    case CallClock(w) =>
      k.(clock := k.clock + 1, read := {},
         out := map sid | sid in k.out :: k.out[sid] + [Message(w, sid, y.modelId, Clock)])
    case Deliver(_, sid) => k.(out := k.out[sid := k.out[sid][1..]])
    case Receive(_, sid) => k.(waiting := k.waiting - {sid}, seen := k.seen[sid := k.seen[sid] + 1])
  }

  function After(y: System, e: Event): System
    requires Enabled(y, e)
  {
    var k := AfterWorker(y.workers[e.w], y, e);
    var y' := y.(workers := y.workers[e.w := k]);
    if e.Deliver? then y'.(servers := y.servers[e.sid := y.servers[e.sid].Step(y.workers[e.w].out[e.sid][0])])
    else y'
  }

  /** All workers are registered at all servers and nothing has been sent. */
  predicate Start(y: System) {
    && 0 <= y.staleness <= INT_MAX
    && (forall w :: w in y.workers ==>
          y.workers[w] == Worker(0, {}, {}, map sid | sid in y.servers :: [], map sid | sid in y.servers :: 0))
    && (forall sid :: sid in y.servers ==>
          var s := y.servers[sid];
          && s.modelId == y.modelId && s.staleness == y.staleness
          && s.tracker == Tracker(map w | w in y.workers :: 0, 0)
          && s.pending == map[] && forall r :: r in s.replies ==> !r.GetReply?)
  }

  ghost predicate IsRunOf(states: seq<System>, events: seq<Event>) {
    && |states| == |events| + 1
    && Start(states[0])
    && forall i :: 0 <= i < |events| ==> Enabled(states[i], events[i]) && states[i + 1] == After(states[i], events[i])
  }

  /* ----- The invariant ----- */

  ghost predicate PresentAt(s: Ssp, w: Tid, k: int) {
    w in s.tracker.progresses && -1 < k == s.tracker.progresses[w] - s.staleness
  }

  ghost predicate HeldAtPresentClock(s: Ssp) {
    forall k, i :: k in s.pending && 0 <= i < |s.pending[k]| ==> PresentAt(s, s.pending[k][i].sender, k)
  }

  /** A server tracks exactly the workers, its minimum is exact, and whatever it holds
      waits for its sender's present clock less the staleness. */
  ghost predicate ServerOk(modelId: int, staleness: int, ws: set<Tid>, s: Ssp) {
    && s.modelId == modelId && s.staleness == staleness
    && Config(s) && HeldOk(s) && s.tracker.ExactMin()
    && s.tracker.progresses.Keys == ws
    && HeldAtPresentClock(s)
  }

  ghost predicate ChannelOk(modelId: int, w: Tid, ch: seq<Message>) {
    && (forall m :: m in ch ==>
          m.sender == w && m.modelId == modelId && !m.op.ResetWorkers? && WellFormed(m))
    && (Count(ch, IsGet()) > 0 ==> ch != [] && ch[|ch| - 1].op.Get?)
  }

  /** One worker and one server: no Clock is lost between them, and a Get the worker waits
      for is in exactly one of the channel, the server, and the reply path. */
  ghost predicate PairOk(modelId: int, w: Tid, k: Worker, sid: Tid, s: Ssp) {
    && sid in k.out && sid in k.seen && w in s.tracker.progresses
    && ChannelOk(modelId, w, k.out[sid])
    && s.tracker.progresses[w] + Count(k.out[sid], IsClock()) == k.clock
    && k.seen[sid] <= RepliesTo(s, w)
    && Count(k.out[sid], IsGet()) + Accounted(s, From(w)) == k.seen[sid] + (if sid in k.waiting then 1 else 0)
    && (sid in k.waiting && Count(k.out[sid], IsGet()) == 0 ==> k.out[sid] == [])
  }

  /** Every worker has a channel to every server, and waits for servers only. */
  ghost predicate Shape(y: System) {
    forall w :: w in y.workers ==> y.workers[w].out.Keys == y.servers.Keys && y.workers[w].waiting <= y.servers.Keys
  }

  ghost predicate Inv(y: System) {
    && 0 <= y.staleness <= INT_MAX
    && Shape(y)
    && (forall sid :: sid in y.servers ==> ServerOk(y.modelId, y.staleness, y.workers.Keys, y.servers[sid]))
    && (forall w, sid :: w in y.workers && sid in y.servers ==> PairOk(y.modelId, w, y.workers[w], sid, y.servers[sid]))
  }

  lemma {:induction false} CountSnoc(ms: seq<Message>, m: Message, p: Message -> bool)
    ensures Count(ms + [m], p) == Count(ms, p) + if p(m) then 1 else 0
  {
    assert (ms + [m])[..|ms|] == ms;
  }

  lemma {:induction false} CountHead(ms: seq<Message>, p: Message -> bool)
    requires ms != []
    ensures Count(ms, p) == (if p(ms[0]) then 1 else 0) + Count(ms[1..], p)
  {
    assert ms == [ms[0]] + ms[1..];
    CountConcat([ms[0]], ms[1..], p);
    CountSnoc([], ms[0], p);
    assert [] + [ms[0]] == [ms[0]];
  }

  lemma {:induction false} NothingAnswered(rs: seq<Reply>, p: Message -> bool)
    requires forall r :: r in rs ==> !r.GetReply?
    ensures CountAnswered(rs, p) == 0
  {
    if rs != [] {
      NothingAnswered(rs[..|rs| - 1], p);
    }
  }

  lemma {:induction false} StartServer(y: System, sid: Tid)
    requires Start(y) && sid in y.servers
    ensures ServerOk(y.modelId, y.staleness, y.workers.Keys, y.servers[sid])
  {
    var t := y.servers[sid].tracker;
    assert (forall w :: w !in t.progresses) ==> t.progresses == map[];
    assert forall w :: w in t.progresses ==> t.progresses[w] == t.minClock;
  }

  lemma {:induction false} StartPair(y: System, w: Tid, sid: Tid)
    requires Start(y) && w in y.workers && sid in y.servers
    ensures PairOk(y.modelId, w, y.workers[w], sid, y.servers[sid])
  {
    NothingAnswered(y.servers[sid].replies, From(w));
  }

  lemma {:induction false} StartInv(y: System)
    requires Start(y)
    ensures Inv(y)
  {
    assert forall w :: w in y.workers ==> y.workers[w].out.Keys == y.servers.Keys;
    forall sid | sid in y.servers ensures ServerOk(y.modelId, y.staleness, y.workers.Keys, y.servers[sid]) {
      StartServer(y, sid);
    }
    forall w, sid | w in y.workers && sid in y.servers
      ensures PairOk(y.modelId, w, y.workers[w], sid, y.servers[sid])
    {
      StartPair(y, w, sid);
    }
  }

  /* ----- Delivery ----- */

  /** A worker whose channel to the server is not empty has no Get held or answered there. */
  lemma {:induction false} NothingHeldBehindChannel(modelId: int, w: Tid, k: Worker, sid: Tid, s: Ssp)
    requires PairOk(modelId, w, k, sid, s) && k.out[sid] != [] && !k.out[sid][0].op.Get?
    ensures Tally(s.pending, From(w)) == 0 && RepliesTo(s, w) == k.seen[sid]
  {
  }

  lemma {:induction false} HeldHasOtherSender(s: Ssp, w: Tid, k: int, i: nat)
    requires Tally(s.pending, From(w)) == 0 && k in s.pending && i < |s.pending[k]|
    ensures s.pending[k][i].sender != w
  {
    if s.pending[k][i].sender == w {
      TallyMember(s.pending, k, i, From(w));
    }
  }

  /** When every held request waits for its sender's present clock and the clocking worker
      has none, a Clock that raises the minimum puts nothing back. */
  lemma {:induction false} DueAreAllAnswered(s: Ssp, m: Message, k: int)
    requires Config(s) && HeldOk(s) && HeldAtPresentClock(s) && Allowed(s, m)
    requires m.op.Clock? && m.modelId == s.modelId && s.tracker.ChangedMinClock(m.sender) > -1
    requires forall k, i :: k in s.pending && 0 <= i < |s.pending[k]| ==> s.pending[k][i].sender != m.sender
    ensures s.HoldsWellFormed()
    ensures HeldAt(s.Step(m).pending, k) == HeldAt(Without(s.pending, s.tracker.ChangedMinClock(m.sender)), k)
  {
    var c := s.tracker.ChangedMinClock(m.sender);
    var due := HeldAt(s.pending, c);
    HeldOkIsWellFormed(s);
    DueIsOk(s, m);
    forall q | q in due ensures !Due(s, m).Defers(q.sender) {
      var i :| 0 <= i < |due| && due[i] == q;
      assert c in s.pending && s.pending[c][i] == q;
      DueRequest(s, m, q);
    }
    ReplayHolds(Due(s, m), due, k);
    NoneRequeued(Due(s, m), due, k);
    assert HeldAt(Due(s, m).pending, k) + [] == HeldAt(Due(s, m).pending, k);
  }

  /** A Clock from a worker with nothing held: every due request is answered, nothing is
      put back, and the rest still wait for their senders' present clocks. */
  lemma {:induction false} ClockKeepsPresent(s: Ssp, m: Message)
    requires Config(s) && HeldOk(s) && HeldAtPresentClock(s) && Allowed(s, m)
    requires m.op.Clock? && m.modelId == s.modelId && Tally(s.pending, From(m.sender)) == 0
    ensures s.HoldsWellFormed() && HeldAtPresentClock(s.Step(m))
  {
    StepKeeps(s, m);
    StepTracker(s, m);
    var s', c := s.Step(m), s.tracker.ChangedMinClock(m.sender);
    forall k, i | k in s.pending && 0 <= i < |s.pending[k]|
      ensures s.pending[k][i].sender != m.sender
    {
      HeldHasOtherSender(s, m.sender, k, i);
    }
    forall k, i | k in s'.pending && 0 <= i < |s'.pending[k]|
      ensures PresentAt(s', s'.pending[k][i].sender, k)
    {
      if c > -1 {
        DueAreAllAnswered(s, m, k);
      }
      assert k in s.pending && i < |s.pending[k]| && s'.pending[k][i] == s.pending[k][i];
      var w := s.pending[k][i].sender;
      assert w != m.sender && PresentAt(s, w, k);
      assert w in s'.tracker.progresses && s'.tracker.progresses[w] == s.tracker.progresses[w];
    }
  }

  lemma {:induction false} GetKeepsPresent(s: Ssp, m: Message)
    requires Config(s) && HeldOk(s) && HeldAtPresentClock(s)
    requires IsGetFor(m, s.modelId) && s.tracker.Registered(m.sender)
    ensures HeldAtPresentClock(s.Get(m))
  {
    DefersIffTooFarAhead(s, m.sender);
    GetFacts(s, m);
    var s' := s.Get(m);
    forall k, i | k in s'.pending && 0 <= i < |s'.pending[k]|
      ensures PresentAt(s', s'.pending[k][i].sender, k)
    {
      GetHolds(s, m, k);
      if i < |HeldAt(s.pending, k)| {
        assert k in s.pending && s'.pending[k][i] == s.pending[k][i];
        assert PresentAt(s, s.pending[k][i].sender, k);
      }
    }
  }

  /** The server after it has processed the head of a channel. */
  lemma {:induction false} DeliveredServer(modelId: int, staleness: int, ws: set<Tid>, w: Tid, k: Worker, sid: Tid, s: Ssp)
    requires ServerOk(modelId, staleness, ws, s) && PairOk(modelId, w, k, sid, s) && k.out[sid] != [] && Allowed(s, k.out[sid][0])
    ensures s.HoldsWellFormed() && ServerOk(modelId, staleness, ws, s.Step(k.out[sid][0]))
  {
    var m := k.out[sid][0];
    assert m in k.out[sid];
    StepKeeps(s, m);
    StepTracker(s, m);
    match m.op
    case Clock =>
      AdvanceIsExact(s.tracker, w);
      NothingHeldBehindChannel(modelId, w, k, sid, s);
      ClockKeepsPresent(s, m);
    case Get(_) => GetKeepsPresent(s, m);
    case Add(_, _) =>
    case ResetWorkers(_) =>
  }

  lemma {:induction false} AnsweredGrows(a: seq<Reply>, b: seq<Reply>, p: Message -> bool)
    requires a <= b
    ensures CountAnswered(a, p) <= CountAnswered(b, p)
    ensures CountAnswered(a, p) < CountAnswered(b, p) ==>
              exists j :: |a| <= j < |b| && b[j].GetReply? && p(RequestOf(b[j]))
  {
    if |a| < |b| {
      var rest := b[..|b| - 1];
      AnsweredGrows(a, rest, p);
      if CountAnswered(a, p) < CountAnswered(rest, p) {
        var j :| |a| <= j < |rest| && rest[j].GetReply? && p(RequestOf(rest[j]));
        assert b[j] == rest[j];
      } else {
        assert CountAnswered(a, p) < CountAnswered(b, p) ==> b[|b| - 1].GetReply? && p(RequestOf(b[|b| - 1]));
      }
    } else {
      assert a == b;
    }
  }

  lemma {:induction false} OnlyOneGet(modelId: int, w: Tid, k: Worker, sid: Tid, s: Ssp)
    requires PairOk(modelId, w, k, sid, s) && k.out[sid] != [] && k.out[sid][0].op.Get?
    ensures k.out[sid][1..] == []
  {
    CountHead(k.out[sid], IsGet());
  }

  lemma {:induction false} DeliveredOwnPair(modelId: int, staleness: int, ws: set<Tid>, w: Tid, k: Worker, sid: Tid, s: Ssp)
    requires ServerOk(modelId, staleness, ws, s) && PairOk(modelId, w, k, sid, s) && k.out[sid] != [] && Allowed(s, k.out[sid][0])
    ensures s.HoldsWellFormed()
    ensures PairOk(modelId, w, k.(out := k.out[sid := k.out[sid][1..]]), sid, s.Step(k.out[sid][0]))
  {
    var ch := k.out[sid];
    var m := ch[0];
    assert m in ch;
    StepKeeps(s, m);
    StepTracker(s, m);
    StepAccounted(s, m, From(w));
    AnsweredGrows(s.replies, s.Step(m).replies, From(w));
    CountHead(ch, IsGet());
    CountHead(ch, IsClock());
    if Count(ch[1..], IsGet()) > 0 {
      assert ch[1..] != [];
      assert ch[1..][|ch[1..]| - 1] == ch[|ch| - 1];
    }
    if m.op.Get? {
      OnlyOneGet(modelId, w, k, sid, s);
    }
  }

  lemma {:induction false} DeliveredOtherPair(modelId: int, staleness: int, ws: set<Tid>, s: Ssp, m: Message, w: Tid, k: Worker, sid: Tid)
    requires ServerOk(modelId, staleness, ws, s) && PairOk(modelId, w, k, sid, s) && Allowed(s, m) && m.sender != w && !m.op.ResetWorkers?
    ensures s.HoldsWellFormed() && PairOk(modelId, w, k, sid, s.Step(m))
  {
    StepKeeps(s, m);
    StepTracker(s, m);
    StepAccounted(s, m, From(w));
    AnsweredGrows(s.replies, s.Step(m).replies, From(w));
  }

  /* ----- Calls and receipts ----- */

  /** A worker that waits for nothing puts one message into the channel. */
  lemma {:induction false} SentPair(modelId: int, w: Tid, k: Worker, k': Worker, sid: Tid, s: Ssp, m: Message)
    requires PairOk(modelId, w, k, sid, s) && k.waiting == {} && sid in k'.out
    requires m.sender == w && m.modelId == modelId && !m.op.ResetWorkers? && WellFormed(m)
    requires k'.out[sid] == k.out[sid] + [m] && k'.seen == k.seen
    requires k'.clock == k.clock + (if m.op.Clock? then 1 else 0) && (sid in k'.waiting <==> m.op.Get?)
    ensures PairOk(modelId, w, k', sid, s)
  {
    CountSnoc(k.out[sid], m, IsGet());
    CountSnoc(k.out[sid], m, IsClock());
  }

  lemma {:induction false} CalledPair(y: System, e: Event, sid: Tid, s: Ssp)
    requires Enabled(y, e) && (e.CallGet? || e.CallAdd? || e.CallClock?)
    requires PairOk(y.modelId, e.w, y.workers[e.w], sid, s) && sid in y.workers[e.w].out
    ensures PairOk(y.modelId, e.w, AfterWorker(y.workers[e.w], y, e), sid, s)
  {
    var k := y.workers[e.w];
    var k' := AfterWorker(k, y, e);
    match e
    case CallGet(w, slices) =>
      if sid in slices {
        SentPair(y.modelId, w, k, k', sid, s, Message(w, sid, y.modelId, Get(slices[sid])));
      }
    case CallAdd(w, parts) =>
      if sid in parts {
        SentPair(y.modelId, w, k, k', sid, s, Message(w, sid, y.modelId, Add(parts[sid].0, parts[sid].1)));
      }
    case CallClock(w) => SentPair(y.modelId, w, k, k', sid, s, Message(w, sid, y.modelId, Clock));
  }

  lemma {:induction false} ReceivedPair(y: System, e: Event, sid: Tid, s: Ssp)
    requires Enabled(y, e) && e.Receive? && sid in y.servers && s == y.servers[sid]
    requires PairOk(y.modelId, e.w, y.workers[e.w], sid, s)
    ensures PairOk(y.modelId, e.w, AfterWorker(y.workers[e.w], y, e), sid, s)
  {
  }

  lemma {:induction false} DeliverPair(y: System, e: Event, v: Tid, sid: Tid)
    requires Enabled(y, e) && e.Deliver? && v in y.workers && sid in y.servers
    requires PairOk(y.modelId, v, y.workers[v], sid, y.servers[sid])
    requires PairOk(y.modelId, e.w, y.workers[e.w], e.sid, y.servers[e.sid])
    requires ServerOk(y.modelId, y.staleness, y.workers.Keys, y.servers[e.sid])
    ensures PairOk(y.modelId, v, After(y, e).workers[v], sid, After(y, e).servers[sid])
  {
    var w, s := e.w, y.servers[e.sid];
    if sid == e.sid {
      if v == w {
        DeliveredOwnPair(y.modelId, y.staleness, y.workers.Keys, w, y.workers[w], sid, s);
      } else {
        assert y.workers[w].out[sid][0] in y.workers[w].out[sid];
        DeliveredOtherPair(y.modelId, y.staleness, y.workers.Keys, s, y.workers[w].out[sid][0], v, y.workers[v], sid);
      }
    }
  }

  lemma {:induction false} DeliverServer(y: System, e: Event, sid: Tid)
    requires Inv(y) && Enabled(y, e) && e.Deliver? && sid in y.servers
    ensures ServerOk(y.modelId, y.staleness, y.workers.Keys, After(y, e).servers[sid])
  {
    assert ServerOk(y.modelId, y.staleness, y.workers.Keys, y.servers[sid]);
    if sid == e.sid {
      assert PairOk(y.modelId, e.w, y.workers[e.w], sid, y.servers[sid]);
      DeliveredServer(y.modelId, y.staleness, y.workers.Keys, e.w, y.workers[e.w], sid, y.servers[sid]);
    }
  }

  lemma {:induction false} WorkerPair(y: System, e: Event, v: Tid, sid: Tid)
    requires Inv(y) && Enabled(y, e) && !e.Deliver? && v in y.workers && sid in y.servers
    ensures PairOk(y.modelId, v, After(y, e).workers[v], sid, y.servers[sid])
  {
    assert PairOk(y.modelId, v, y.workers[v], sid, y.servers[sid]);
    if v == e.w {
      if e.Receive? {
        ReceivedPair(y, e, sid, y.servers[sid]);
      } else {
        CalledPair(y, e, sid, y.servers[sid]);
      }
    }
  }

  lemma {:induction false} WorkerShape(y: System, e: Event)
    requires Enabled(y, e) && y.workers[e.w].waiting <= y.workers[e.w].out.Keys
    ensures var k, k' := y.workers[e.w], AfterWorker(y.workers[e.w], y, e);
            k'.out.Keys == k.out.Keys && k'.waiting <= k.out.Keys
  {
  }

  /** Calls, deliveries and receipts never change who there is. */
  lemma {:induction false} SameShape(y: System, e: Event)
    requires Shape(y) && Enabled(y, e)
    ensures var y' := After(y, e);
            && y'.modelId == y.modelId && y'.staleness == y.staleness
            && y'.workers.Keys == y.workers.Keys && y'.servers.Keys == y.servers.Keys
            && (!e.Deliver? ==> y'.servers == y.servers)
            && Shape(y')
  {
    WorkerShape(y, e);
  }

  /** Every step of the system keeps the invariant. */
  lemma {:induction false} StepInv(y: System, e: Event)
    requires Inv(y) && Enabled(y, e)
    ensures Inv(After(y, e))
  {
    var y' := After(y, e);
    SameShape(y, e);
    forall sid | sid in y'.servers
      ensures ServerOk(y'.modelId, y'.staleness, y'.workers.Keys, y'.servers[sid])
    {
      if e.Deliver? {
        DeliverServer(y, e, sid);
      }
    }
    forall w, sid | w in y'.workers && sid in y'.servers
      ensures PairOk(y'.modelId, w, y'.workers[w], sid, y'.servers[sid])
    {
      if e.Deliver? {
        assert ServerOk(y.modelId, y.staleness, y.workers.Keys, y.servers[e.sid]);
        DeliverPair(y, e, w, sid);
      } else {
        WorkerPair(y, e, w, sid);
      }
    }
  }

  lemma {:induction false} RunInvariant(states: seq<System>, events: seq<Event>, n: nat)
    requires IsRunOf(states, events) && n <= |events|
    ensures Inv(states[n])
  {
    if n == 0 {
      StartInv(states[0]);
    } else {
      RunInvariant(states, events, n - 1);
      StepInv(states[n - 1], events[n - 1]);
    }
  }

  /* ----- Deadlock freedom ----- */

  /** No message and no reply is in flight. */
  ghost predicate Quiescent(y: System) {
    forall w, sid :: w in y.workers && sid in y.servers ==>
      && sid in y.workers[w].out && sid in y.workers[w].seen
      && y.workers[w].out[sid] == [] && RepliesTo(y.servers[sid], w) == y.workers[w].seen[sid]
  }

  /** When nothing is in flight every server's tracker says the same: each worker's
      progress is the number of its `Clock` calls. */
  lemma {:induction false} TrackersAgree(states: seq<System>, events: seq<Event>, n: nat, w: Tid, sid: Tid)
    requires IsRunOf(states, events) && n <= |events| && Quiescent(states[n])
    requires w in states[n].workers && sid in states[n].servers
    ensures w in states[n].servers[sid].tracker.progresses
    ensures states[n].servers[sid].tracker.progresses[w] == states[n].workers[w].clock
  {
    RunInvariant(states, events, n);
    assert PairOk(states[n].modelId, w, states[n].workers[w], sid, states[n].servers[sid]);
  }

  /** A server holds nothing of a worker whose progress is the smallest. */
  lemma {:induction false} SlowestIsNotHeld(modelId: int, staleness: int, ws: set<Tid>, w: Tid, k: Worker, sid: Tid, s: Ssp)
    requires ServerOk(modelId, staleness, ws, s) && PairOk(modelId, w, k, sid, s)
    requires k.out[sid] == [] && RepliesTo(s, w) == k.seen[sid]
    requires forall v :: v in s.tracker.progresses ==> s.tracker.progresses[w] <= s.tracker.progresses[v]
    ensures sid !in k.waiting
  {
    assert s.tracker.progresses[w] == s.tracker.minClock by {
      var v :| v in s.tracker.progresses && s.tracker.progresses[v] == s.tracker.minClock;
    }
    if Tally(s.pending, From(w)) > 0 {
      var c, i := TallyPositive(s.pending, From(w));
    }
  }

  /** DEADLOCK FREEDOM. In every reachable state with nothing in flight, a worker with the
      smallest clock is not waiting on any server, so it can go on. */
  lemma {:induction false} SlowestWorkerIsNotBlocked(states: seq<System>, events: seq<Event>, n: nat, w: Tid)
    requires IsRunOf(states, events) && n <= |events| && Quiescent(states[n])
    requires w in states[n].workers
    requires forall v :: v in states[n].workers ==> states[n].workers[w].clock <= states[n].workers[v].clock
    ensures states[n].workers[w].waiting == {}
    ensures Enabled(states[n], CallClock(w))
    ensures forall slices: map<Tid, seq<Key>> :: slices.Keys <= states[n].servers.Keys ==> Enabled(states[n], CallGet(w, slices))
  {
    RunInvariant(states, events, n);
    var y := states[n];
    forall sid | sid in y.servers ensures sid !in y.workers[w].waiting {
      forall v | v in y.workers
        ensures v in y.servers[sid].tracker.progresses && y.servers[sid].tracker.progresses[v] == y.workers[v].clock
      {
        TrackersAgree(states, events, n, v, sid);
      }
      assert ServerOk(y.modelId, y.staleness, y.workers.Keys, y.servers[sid]);
      assert PairOk(y.modelId, w, y.workers[w], sid, y.servers[sid]);
      SlowestIsNotHeld(y.modelId, y.staleness, y.workers.Keys, w, y.workers[w], sid, y.servers[sid]);
    }
  }

  lemma {:induction false} SlowestWorker(y: System) returns (w: Tid)
    requires y.workers != map[]
    ensures w in y.workers && forall v :: v in y.workers ==> y.workers[w].clock <= y.workers[v].clock
  {
    assert (forall v :: v !in y.workers) ==> y.workers == map[];
    w :| w in y.workers;
    var rest := y.workers.Keys - {w};
    while rest != {}
      invariant w in y.workers && rest <= y.workers.Keys
      invariant forall v :: v in y.workers && v !in rest ==> y.workers[w].clock <= y.workers[v].clock
      decreases rest
    {
      assert (forall v :: v !in rest) ==> rest == {};
      var v :| v in rest;
      rest := rest - {v};
      if y.workers[v].clock < y.workers[w].clock {
        w := v;
      }
    }
  }

  /** Hence no reachable state of a system with a worker is stuck, short of an int clock
      running out. */
  lemma {:induction false} SomethingIsEnabled(states: seq<System>, events: seq<Event>, n: nat) returns (e: Event)
    requires IsRunOf(states, events) && n <= |events| && states[n].workers != map[]
    requires forall w :: w in states[n].workers ==> states[n].workers[w].clock <= INT_MAX
    ensures Enabled(states[n], e)
  {
    var y := states[n];
    RunInvariant(states, events, n);
    if w, sid :| w in y.workers && sid in y.servers && y.workers[w].out[sid] != [] {
      assert PairOk(y.modelId, w, y.workers[w], sid, y.servers[sid]);
      assert ServerOk(y.modelId, y.staleness, y.workers.Keys, y.servers[sid]);
      HeldOkIsWellFormed(y.servers[sid]);
      assert y.workers[w].out[sid][0] in y.workers[w].out[sid];
      CountHead(y.workers[w].out[sid], IsClock());
      e := Deliver(w, sid);
    } else if w, sid :| w in y.workers && sid in y.servers && RepliesTo(y.servers[sid], w) > y.workers[w].seen[sid] {
      assert PairOk(y.modelId, w, y.workers[w], sid, y.servers[sid]);
      e := Receive(w, sid);
    } else {
      forall w, sid | w in y.workers && sid in y.servers
        ensures && sid in y.workers[w].out && sid in y.workers[w].seen
                && y.workers[w].out[sid] == [] && RepliesTo(y.servers[sid], w) == y.workers[w].seen[sid]
      {
        assert PairOk(y.modelId, w, y.workers[w], sid, y.servers[sid]);
      }
      var w := SlowestWorker(y);
      SlowestWorkerIsNotBlocked(states, events, n, w);
      e := CallClock(w);
    }
  }

  /* ----- Bounded drift ----- */

  /** The loop of the sample application, as seen by server `sid`: a worker calls `Clock`
      only if it has read from `sid` since its previous `Clock`. */
  predicate ReadsBeforeClock(y: System, e: Event, sid: Tid) {
    e.CallClock? && e.w in y.workers ==> sid in y.workers[e.w].read
  }

  ghost predicate DriftOk(k: Worker, w: Tid, sid: Tid, s: Ssp)
    requires w in s.tracker.progresses && sid in k.out && sid in k.seen
  {
    var lead, clocks := s.tracker.progresses[w] - s.tracker.minClock, Count(k.out[sid], IsClock());
    && lead <= s.staleness + 1
    && clocks <= 1
    && (clocks == 1 ==> lead <= s.staleness)
    && (sid in k.read && sid !in k.waiting ==> clocks == 0 && lead <= s.staleness)
    && (RepliesTo(s, w) > k.seen[sid] ==> lead <= s.staleness)
  }

  ghost predicate Drift(y: System, sid: Tid) {
    sid in y.servers &&
    forall w :: w in y.workers ==>
      && w in y.servers[sid].tracker.progresses && sid in y.workers[w].out && sid in y.workers[w].seen
      && DriftOk(y.workers[w], w, sid, y.servers[sid])
  }

  lemma {:induction false} CalledDrift(y: System, e: Event, sid: Tid, s: Ssp)
    requires Enabled(y, e) && !e.Deliver? && ReadsBeforeClock(y, e, sid)
    requires sid in y.servers && s == y.servers[sid] && PairOk(y.modelId, e.w, y.workers[e.w], sid, s)
    requires DriftOk(y.workers[e.w], e.w, sid, s)
    ensures var k := AfterWorker(y.workers[e.w], y, e);
            sid in k.out && sid in k.seen && DriftOk(k, e.w, sid, s)
  {
    var k := y.workers[e.w];
    var ch, ch' := k.out[sid], AfterWorker(k, y, e).out[sid];
    if ch' != ch {
      var m := ch'[|ch'| - 1];
      assert ch' == ch + [m];
      CountSnoc(ch, m, IsClock());
    }
  }

  /** A Clock never answers its own sender in the closed loop: nothing of it is held. */
  lemma {:induction false} ClockAnswersOthers(s: Ssp, m: Message)
    requires Config(s) && HeldOk(s) && HeldAtPresentClock(s) && Allowed(s, m)
    requires m.op.Clock? && Tally(s.pending, From(m.sender)) == 0
    ensures s.HoldsWellFormed() && RepliesTo(s.Step(m), m.sender) == RepliesTo(s, m.sender)
  {
    StepAccounted(s, m, From(m.sender));
    StepKeeps(s, m);
    AnsweredGrows(s.replies, s.Step(m).replies, From(m.sender));
  }

  /** Delivering a message of `from` and the lead of worker `w`, possibly another one. */
  lemma {:induction false} DeliveredDrift(modelId: int, staleness: int, ws: set<Tid>, from: Tid, kf: Worker, w: Tid, k: Worker, sid: Tid, s: Ssp)
    requires ServerOk(modelId, staleness, ws, s) && PairOk(modelId, from, kf, sid, s) && PairOk(modelId, w, k, sid, s)
    requires kf.out[sid] != [] && Allowed(s, kf.out[sid][0]) && s.HoldsWellFormed()
    requires w == from ==> k == kf
    requires DriftOk(k, w, sid, s)
    ensures var s' := s.Step(kf.out[sid][0]);
            var k' := if w == from then k.(out := k.out[sid := k.out[sid][1..]]) else k;
            w in s'.tracker.progresses && DriftOk(k', w, sid, s')
  {
    var m := kf.out[sid][0];
    var s' := s.Step(m);
    assert m in kf.out[sid];
    StepKeeps(s, m);
    StepTracker(s, m);
    AdvanceKeepsLowerBound(s.tracker, m.sender);
    CountHead(kf.out[sid], IsClock());
    AnsweredGrows(s.replies, s'.replies, From(w));
    if RepliesTo(s', w) > RepliesTo(s, w) {
      var j :| |s.replies| <= j < |s'.replies| && s'.replies[j].GetReply? && From(w)(RequestOf(s'.replies[j]));
      assert GoodReply(s', s'.replies[j]);
    }
    if w == from && m.op.Clock? {
      NothingHeldBehindChannel(modelId, w, k, sid, s);
      AdvanceIsExact(s.tracker, w);
      ClockAnswersOthers(s, m);
    }
  }

  lemma {:induction false} DriftStepFor(y: System, e: Event, sid: Tid, w: Tid)
    requires Enabled(y, e) && ReadsBeforeClock(y, e, sid) && w in y.workers && sid in y.servers
    requires ServerOk(y.modelId, y.staleness, y.workers.Keys, y.servers[sid])
    requires PairOk(y.modelId, e.w, y.workers[e.w], sid, y.servers[sid])
    requires PairOk(y.modelId, w, y.workers[w], sid, y.servers[sid])
    requires DriftOk(y.workers[w], w, sid, y.servers[sid])
    ensures var y' := After(y, e);
            && sid in y'.servers && w in y'.workers
            && w in y'.servers[sid].tracker.progresses && sid in y'.workers[w].out && sid in y'.workers[w].seen
            && DriftOk(y'.workers[w], w, sid, y'.servers[sid])
  {
    if e.Deliver? && e.sid == sid {
      DeliveredDrift(y.modelId, y.staleness, y.workers.Keys, e.w, y.workers[e.w], w, y.workers[w], sid, y.servers[sid]);
    } else if !e.Deliver? && w == e.w {
      CalledDrift(y, e, sid, y.servers[sid]);
    }
  }

  lemma {:induction false} DriftStep(y: System, e: Event, sid: Tid)
    requires Inv(y) && Enabled(y, e) && ReadsBeforeClock(y, e, sid) && Drift(y, sid)
    ensures Drift(After(y, e), sid)
  {
    SameShape(y, e);
    forall w | w in y.workers
      ensures var y' := After(y, e);
              && w in y'.servers[sid].tracker.progresses && sid in y'.workers[w].out && sid in y'.workers[w].seen
              && DriftOk(y'.workers[w], w, sid, y'.servers[sid])
    {
      assert PairOk(y.modelId, w, y.workers[w], sid, y.servers[sid]);
      assert PairOk(y.modelId, e.w, y.workers[e.w], sid, y.servers[sid]);
      DriftStepFor(y, e, sid, w);
    }
  }

  lemma {:induction false} RunDrift(states: seq<System>, events: seq<Event>, n: nat, sid: Tid)
    requires IsRunOf(states, events) && n <= |events| && sid in states[0].servers
    requires forall i :: 0 <= i < n ==> ReadsBeforeClock(states[i], events[i], sid)
    ensures Drift(states[n], sid)
  {
    if n == 0 {
      StartInv(states[0]);
      forall w | w in states[0].workers ensures DriftOk(states[0].workers[w], w, sid, states[0].servers[sid]) {
        NothingAnswered(states[0].servers[sid].replies, From(w));
      }
    } else {
      RunDrift(states, events, n - 1, sid);
      RunInvariant(states, events, n - 1);
      DriftStep(states[n - 1], events[n - 1], sid);
    }
  }

  /** BOUNDED DRIFT. If every worker reads from server `sid` between any two of its Clocks,
      then in every reachable state no two progresses at that server differ by more than
      the staleness plus one. */
  lemma {:induction false} DriftIsBounded(states: seq<System>, events: seq<Event>, n: nat, sid: Tid, fast: Tid, slow: Tid)
    requires IsRunOf(states, events) && n <= |events| && sid in states[0].servers
    requires forall i :: 0 <= i < n ==> ReadsBeforeClock(states[i], events[i], sid)
    requires fast in states[n].workers && slow in states[n].workers
    ensures sid in states[n].servers
    ensures var p := states[n].servers[sid].tracker.progresses;
            fast in p && slow in p && p[fast] - p[slow] <= states[n].staleness + 1
  {
    RunDrift(states, events, n, sid);
    RunInvariant(states, events, n);
    assert ServerOk(states[n].modelId, states[n].staleness, states[n].workers.Keys, states[n].servers[sid]);
    assert DriftOk(states[n].workers[fast], fast, sid, states[n].servers[sid]);
  }
}
