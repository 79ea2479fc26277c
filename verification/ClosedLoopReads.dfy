/** What the closed loop's servers hold and its workers read, in terms of the calls that the
    workers made: the read guarantee of one server carried over to the whole system. */
module ClosedLoopReads {
  import opened Messages
  import opened MachineInts
  import opened ProgressTracking
  import opened PendingMessages
  import opened KeyValueStorage
  import opened SspModel
  import opened SspGuarantees
  import opened ClosedLoop

  /* ----- What was called and what was delivered, read off the events ----- */

  /** What a call of worker `w` puts into the channel to server `sid`. */
  function CallMessage(e: Event, w: Tid, sid: Tid, modelId: int): seq<Message> {
    if e.w != w then []
    else
      match e
      case CallGet(_, slices) => if sid in slices then [Message(w, sid, modelId, Get(slices[sid]))] else []
      case CallAdd(_, parts) => if sid in parts then [Message(w, sid, modelId, Add(parts[sid].0, parts[sid].1))] else []
      case CallClock(_) => [Message(w, sid, modelId, Clock)]
      case _ => []
  }

  /** Everything that `w` has called on `sid` in the first `n` events, in order. */
  function Called(events: seq<Event>, n: nat, w: Tid, sid: Tid, modelId: int): seq<Message>
    requires n <= |events|
  {
    if n == 0 then [] else Called(events, n - 1, w, sid, modelId) + CallMessage(events[n - 1], w, sid, modelId)
  }

  function Deliveries(events: seq<Event>, n: nat, w: Tid, sid: Tid): nat
    requires n <= |events|
  {
    if n == 0 then 0 else Deliveries(events, n - 1, w, sid) + if events[n - 1] == Deliver(w, sid) then 1 else 0
  }

  /** What the delivery at event `n` hands over: channels are first-in first-out. */
  function Handed(events: seq<Event>, n: nat, sid: Tid, modelId: int): seq<Message>
    requires n < |events|
  {
    var e := events[n];
    if e.Deliver? && e.sid == sid && Deliveries(events, n, e.w, sid) < |Called(events, n, e.w, sid, modelId)|
    then [Called(events, n, e.w, sid, modelId)[Deliveries(events, n, e.w, sid)]]
    else []
  }

  /** Everything that was delivered to `sid`, in order. */
  function History(events: seq<Event>, n: nat, sid: Tid, modelId: int): seq<Message>
    requires n <= |events|
  {
    if n == 0 then [] else History(events, n - 1, sid, modelId) + Handed(events, n - 1, sid, modelId)
  }

  /* ----- Channels ----- */

  /** What is still in the channel is what was called and not yet delivered. */
  ghost predicate ChannelIs(out: map<Tid, seq<Message>>, sid: Tid, called: seq<Message>, delivered: nat) {
    sid in out && delivered <= |called| && out[sid] == called[delivered..]
  }

  lemma {:induction false} CallExtends(y: System, e: Event, sid: Tid, called: seq<Message>, delivered: nat)
    requires Enabled(y, e) && !e.Deliver? && ChannelIs(y.workers[e.w].out, sid, called, delivered)
    ensures ChannelIs(AfterWorker(y.workers[e.w], y, e).out, sid, called + CallMessage(e, e.w, sid, y.modelId), delivered)
  {
    var m := CallMessage(e, e.w, sid, y.modelId);
    assert called[delivered..] + m == (called + m)[delivered..];
    assert called[delivered..] + [] == called[delivered..];
  }

  lemma {:induction false} DeliveryShrinks(y: System, e: Event, sid: Tid, called: seq<Message>, delivered: nat)
    requires Enabled(y, e) && e.Deliver? && ChannelIs(y.workers[e.w].out, sid, called, delivered)
    ensures ChannelIs(AfterWorker(y.workers[e.w], y, e).out, sid, called, delivered + if e.sid == sid then 1 else 0)
    ensures e.sid == sid ==> delivered < |called| && y.workers[e.w].out[sid][0] == called[delivered]
  {
    if e.sid == sid {
      assert called[delivered..][1..] == called[delivered + 1..];
    }
  }

  lemma {:induction false} RunShape(states: seq<System>, events: seq<Event>, n: nat)
    requires IsRunOf(states, events) && n <= |events|
    ensures Shape(states[n]) && states[n].modelId == states[0].modelId && states[n].staleness == states[0].staleness
    ensures states[n].workers.Keys == states[0].workers.Keys && states[n].servers.Keys == states[0].servers.Keys
  {
    if n == 0 {
      StartInv(states[0]);
    } else {
      RunShape(states, events, n - 1);
      SameShape(states[n - 1], events[n - 1]);
    }
  }

  lemma {:induction false} ChannelStep(y: System, e: Event, w: Tid, sid: Tid, called: seq<Message>, delivered: nat)
    requires Enabled(y, e) && w in y.workers && ChannelIs(y.workers[w].out, sid, called, delivered)
    ensures w in After(y, e).workers
    ensures ChannelIs(After(y, e).workers[w].out, sid, called + CallMessage(e, w, sid, y.modelId),
                      delivered + if e == Deliver(w, sid) then 1 else 0)
  {
    assert called + [] == called;
    if e.w == w {
      if e.Deliver? {
        DeliveryShrinks(y, e, sid, called, delivered);
      } else {
        CallExtends(y, e, sid, called, delivered);
      }
    }
  }

  lemma {:induction false} RunChannel(states: seq<System>, events: seq<Event>, n: nat, w: Tid, sid: Tid)
    requires IsRunOf(states, events) && n <= |events| && w in states[0].workers && sid in states[0].servers
    ensures w in states[n].workers
    ensures ChannelIs(states[n].workers[w].out, sid, Called(events, n, w, sid, states[0].modelId), Deliveries(events, n, w, sid))
  {
    if n > 0 {
      RunChannel(states, events, n - 1, w, sid);
      RunShape(states, events, n - 1);
      assert Enabled(states[n - 1], events[n - 1]) && states[n] == After(states[n - 1], events[n - 1]);
      ChannelStep(states[n - 1], events[n - 1], w, sid,
                  Called(events, n - 1, w, sid, states[0].modelId), Deliveries(events, n - 1, w, sid));
    }
  }

  lemma {:induction false} CalledIsFrom(events: seq<Event>, n: nat, w: Tid, sid: Tid, modelId: int)
    requires n <= |events|
    ensures forall i :: 0 <= i < |Called(events, n, w, sid, modelId)| ==>
              var m := Called(events, n, w, sid, modelId)[i]; m.sender == w && m.modelId == modelId && !m.op.ResetWorkers?
  {
    if n > 0 {
      CalledIsFrom(events, n - 1, w, sid, modelId);
    }
  }

  lemma {:induction false} SentBySnoc(h: seq<Message>, m: Message, w: Tid)
    ensures SentBy(h + [m], w) == SentBy(h, w) + if m.sender == w then [m] else []
  {
    assert (h + [m])[..|h|] == h;
  }

  /** A delivery to `sid` hands over the next message of its worker. */
  lemma {:induction false} HandedIs(states: seq<System>, events: seq<Event>, n: nat, sid: Tid)
    requires IsRunOf(states, events) && n < |events| && sid in states[0].servers
    requires events[n].Deliver? && events[n].sid == sid
    ensures var v, modelId := events[n].w, states[0].modelId;
            var called, d := Called(events, n, v, sid, modelId), Deliveries(events, n, v, sid);
            && d < |called| && Handed(events, n, sid, modelId) == [called[d]] && called[d].sender == v
            && v in states[n].workers && sid in states[n].workers[v].out && states[n].workers[v].out[sid] != []
            && states[n].workers[v].out[sid][0] == called[d]
  {
    var y, e, modelId := states[n], events[n], states[0].modelId;
    RunShape(states, events, n);
    assert Enabled(y, e);
    RunChannel(states, events, n, e.w, sid);
    DeliveryShrinks(y, e, sid, Called(events, n, e.w, sid, modelId), Deliveries(events, n, e.w, sid));
    CalledIsFrom(events, n, e.w, sid, modelId);
  }

  /** `h` holds exactly the first `delivered` of the calls of `w`. */
  ghost predicate HoldsFirst(h: seq<Message>, w: Tid, called: seq<Message>, delivered: nat) {
    delivered <= |called| && SentBy(h, w) == called[..delivered]
  }

  lemma {:induction false} HoldsOneMore(h: seq<Message>, w: Tid, called: seq<Message>, delivered: nat)
    requires HoldsFirst(h, w, called, delivered) && delivered < |called| && called[delivered].sender == w
    ensures HoldsFirst(h + [called[delivered]], w, called, delivered + 1)
  {
    SentBySnoc(h, called[delivered], w);
    assert called[..delivered + 1] == called[..delivered] + [called[delivered]];
  }

  lemma {:induction false} HoldsOther(h: seq<Message>, w: Tid, called: seq<Message>, delivered: nat, m: Message)
    requires HoldsFirst(h, w, called, delivered) && m.sender != w
    ensures HoldsFirst(h + [m], w, called, delivered)
  {
    SentBySnoc(h, m, w);
    assert SentBy(h, w) + [] == SentBy(h, w);
  }

  lemma {:induction false} HoldsWithMoreCalled(h: seq<Message>, w: Tid, called: seq<Message>, delivered: nat, more: seq<Message>)
    requires HoldsFirst(h, w, called, delivered)
    ensures HoldsFirst(h + [], w, called + more, delivered)
  {
    assert (called + more)[..delivered] == called[..delivered];
    assert h + [] == h;
  }

  lemma {:induction false} HoldsStep(states: seq<System>, events: seq<Event>, n: nat, w: Tid, sid: Tid,
                                     h: seq<Message>, called: seq<Message>, delivered: nat)
    requires IsRunOf(states, events) && n < |events| && sid in states[0].servers && HoldsFirst(h, w, called, delivered)
    requires called == Called(events, n, w, sid, states[0].modelId) && delivered == Deliveries(events, n, w, sid)
    ensures HoldsFirst(h + Handed(events, n, sid, states[0].modelId), w,
                       called + CallMessage(events[n], w, sid, states[0].modelId),
                       delivered + if events[n] == Deliver(w, sid) then 1 else 0)
  {
    var e := events[n];
    if e.Deliver? && e.sid == sid {
      HandedIs(states, events, n, sid);
      assert called + [] == called;
      if e.w == w {
        HoldsOneMore(h, w, called, delivered);
      } else {
        HoldsOther(h, w, called, delivered, Handed(events, n, sid, states[0].modelId)[0]);
      }
    } else {
      HoldsWithMoreCalled(h, w, called, delivered, CallMessage(e, w, sid, states[0].modelId));
    }
  }

  /** What was delivered of a worker's calls is the beginning of them. */
  lemma {:induction false} DeliveredOf(states: seq<System>, events: seq<Event>, n: nat, w: Tid, sid: Tid)
    requires IsRunOf(states, events) && n <= |events| && sid in states[0].servers
    ensures HoldsFirst(History(events, n, sid, states[0].modelId), w,
                       Called(events, n, w, sid, states[0].modelId), Deliveries(events, n, w, sid))
  {
    if n > 0 {
      DeliveredOf(states, events, n - 1, w, sid);
      HoldsStep(states, events, n - 1, w, sid, History(events, n - 1, sid, states[0].modelId),
                Called(events, n - 1, w, sid, states[0].modelId), Deliveries(events, n - 1, w, sid));
    }
  }

  /** FIFO. In every run, for every worker and server: what the worker has called is what was
      delivered of it, in order, followed by what is in the channel. */
  lemma {:induction false} ChannelsAreFifo(states: seq<System>, events: seq<Event>, n: nat, w: Tid, sid: Tid)
    requires IsRunOf(states, events) && n <= |events| && w in states[0].workers && sid in states[0].servers
    ensures w in states[n].workers && sid in states[n].workers[w].out
    ensures SentBy(History(events, n, sid, states[0].modelId), w) + states[n].workers[w].out[sid] ==
            Called(events, n, w, sid, states[0].modelId)
  {
    RunChannel(states, events, n, w, sid);
    DeliveredOf(states, events, n, w, sid);
    var called, d := Called(events, n, w, sid, states[0].modelId), Deliveries(events, n, w, sid);
    assert called[..d] + called[d..] == called;
  }

  /* ----- Storage ----- */

  lemma {:induction false} ListOf(s: set<Tid>) returns (ws: seq<Tid>)
    ensures forall w :: w in ws <==> w in s
    decreases |s|
  {
    if s == {} {
      ws := [];
    } else {
      assert (forall w :: w !in s) ==> s == {};
      var w :| w in s;
      var rest := ListOf(s - {w});
      ws := [w] + rest;
    }
  }

  /** The registration that the start state of a run has behind it. */
  function Registration(sid: Tid, modelId: int, ws: seq<Tid>): Message {
    Message(0, sid, modelId, ResetWorkers(ws))
  }

  lemma {:induction false} StartRunInv(y: System, sid: Tid, ws: seq<Tid>)
    requires Start(y) && sid in y.servers && y.servers[sid].storage == map[]
    requires forall w :: w in ws <==> w in y.workers
    ensures RunInv(y.servers[sid], [Registration(sid, y.modelId, ws)])
  {
    var s, h := y.servers[sid], [Registration(sid, y.modelId, ws)];
    StartServer(y, sid);
    assert h[..0] == [];
    forall p: Message -> bool ensures Accounted(s, p) == CountGets(h, s.modelId, p) {
      NothingAnswered(s.replies, p);
    }
  }

  lemma {:induction false} ServerStep(states: seq<System>, events: seq<Event>, n: nat, sid: Tid, h: seq<Message>)
    requires IsRunOf(states, events) && n < |events| && sid in states[0].servers
    requires sid in states[n].servers && RunInv(states[n].servers[sid], h)
    ensures sid in states[n + 1].servers
    ensures RunInv(states[n + 1].servers[sid], h + Handed(events, n, sid, states[0].modelId))
  {
    var y, e := states[n], events[n];
    assert Enabled(y, e) && states[n + 1] == After(y, e);
    if e.Deliver? && e.sid == sid {
      HandedIs(states, events, n, sid);
      StepKeepsRunInv(y.servers[sid], h, y.workers[e.w].out[sid][0]);
    } else {
      assert h + [] == h;
    }
  }

  lemma {:induction false} RunServer(states: seq<System>, events: seq<Event>, n: nat, sid: Tid, ws: seq<Tid>)
    requires IsRunOf(states, events) && n <= |events| && sid in states[0].servers && states[0].servers[sid].storage == map[]
    requires forall w :: w in ws <==> w in states[0].workers
    ensures sid in states[n].servers
    ensures RunInv(states[n].servers[sid],
                   [Registration(sid, states[0].modelId, ws)] + History(events, n, sid, states[0].modelId))
  {
    var r := [Registration(sid, states[0].modelId, ws)];
    if n == 0 {
      StartRunInv(states[0], sid, ws);
      assert r + [] == r;
    } else {
      var h, m := History(events, n - 1, sid, states[0].modelId), Handed(events, n - 1, sid, states[0].modelId);
      RunServer(states, events, n - 1, sid, ws);
      ServerStep(states, events, n - 1, sid, r + h);
      assert r + h + m == r + (h + m);
    }
  }

  lemma {:induction false} SumAfterRegistration(r: Message, h: seq<Message>, modelId: int, k: Key)
    requires r.op.ResetWorkers?
    ensures SumAdds([r] + h, modelId, k) == SumAdds(h, modelId, k)
  {
    if h == [] {
      assert [r] + h == [r] && [r][..0] == [];
    } else {
      var n := |h| - 1;
      SumAfterRegistration(r, h[..n], modelId, k);
      assert ([r] + h)[..n + 1] == [r] + h[..n];
    }
  }

  lemma {:induction false} ClocksAfterRegistration(r: Message, h: seq<Message>, modelId: int, w: Tid)
    requires Resets(r, w) && forall i :: 0 <= i < |h| ==> !h[i].op.ResetWorkers?
    ensures ClocksOf([r] + h, modelId, w) == CountClocks(h, modelId, w)
  {
    if h == [] {
      assert [r] + h == [] + [r];
      ClocksOfExtend([], r, modelId, w);
    } else {
      var n := |h| - 1;
      ClocksAfterRegistration(r, h[..n], modelId, w);
      ClocksOfExtend([r] + h[..n], h[n], modelId, w);
      assert [r] + h == [r] + h[..n] + [h[n]];
    }
  }

  lemma {:induction false} HistoryHasNoReset(events: seq<Event>, n: nat, sid: Tid, modelId: int)
    requires n <= |events|
    ensures forall i :: 0 <= i < |History(events, n, sid, modelId)| ==> !History(events, n, sid, modelId)[i].op.ResetWorkers?
  {
    if n > 0 {
      HistoryHasNoReset(events, n - 1, sid, modelId);
      CalledIsFrom(events, n - 1, events[n - 1].w, sid, modelId);
    }
  }

  /** STORAGE IS WHAT WAS DELIVERED. In every run from empty storage every server holds, for
      every key, the sum of the Adds that were delivered to it, and its progress of a worker
      is the number of that worker's Clocks that were. */
  lemma {:induction false} StorageIsDelivered(states: seq<System>, events: seq<Event>, n: nat, sid: Tid, k: Key, w: Tid)
    requires IsRunOf(states, events) && n <= |events| && sid in states[0].servers && states[0].servers[sid].storage == map[]
    requires w in states[0].workers
    ensures sid in states[n].servers && w in states[n].servers[sid].tracker.progresses
    ensures var s, h, modelId := states[n].servers[sid], History(events, n, sid, states[0].modelId), states[0].modelId;
            && Lookup(s.storage, k) == SumAdds(h, modelId, k)
            && s.tracker.progresses[w] == CountClocks(SentBy(h, w), modelId, w)
  {
    var h, modelId := History(events, n, sid, states[0].modelId), states[0].modelId;
    var ws := ListOf(states[0].workers.Keys);
    var r := Registration(sid, modelId, ws);
    RunServer(states, events, n, sid, ws);
    RunShape(states, events, n);
    RunInvariant(states, events, n);
    assert ServerOk(states[n].modelId, states[n].staleness, states[n].workers.Keys, states[n].servers[sid]);
    SumAfterRegistration(r, h, modelId, k);
    HistoryHasNoReset(events, n, sid, modelId);
    ClocksAfterRegistration(r, h, modelId, w);
    CountClocksSent(h, modelId, w);
  }

  /* ----- Reads ----- */

  /** Reply `j` of server `sid` is a Get reply that event `n` produces. */
  predicate Replies(states: seq<System>, events: seq<Event>, n: nat, sid: Tid, j: nat)
    requires |states| == |events| + 1 && n < |events|
  {
    && sid in states[n].servers && sid in states[n + 1].servers
    && |states[n].servers[sid].replies| <= j < |states[n + 1].servers[sid].replies|
    && states[n + 1].servers[sid].replies[j].GetReply?
  }

  lemma {:induction false} RunServerOk(states: seq<System>, events: seq<Event>, n: nat, sid: Tid)
    requires IsRunOf(states, events) && n <= |events| && sid in states[n].servers
    ensures ServerOk(states[n].modelId, states[n].staleness, states[n].workers.Keys, states[n].servers[sid])
  {
    RunInvariant(states, events, n);
  }

  /** Only a delivery makes a server reply; it leaves what the workers have seen alone. */
  lemma {:induction false} RepliesNeedDelivery(states: seq<System>, events: seq<Event>, n: nat, sid: Tid, j: nat, u: Tid)
    requires IsRunOf(states, events) && n < |events| && Replies(states, events, n, sid, j)
    ensures var e := events[n];
            && e.Deliver? && e.sid == sid && e.w in states[n].workers && sid in states[n].workers[e.w].out
            && var ch := states[n].workers[e.w].out[sid];
               && ch != [] && Allowed(states[n].servers[sid], ch[0]) && states[n].servers[sid].HoldsWellFormed()
               && states[n + 1].servers[sid] == states[n].servers[sid].Step(ch[0])
    ensures u in states[n].workers ==> u in states[n + 1].workers && states[n + 1].workers[u].seen == states[n].workers[u].seen
  {
    assert Enabled(states[n], events[n]) && states[n + 1] == After(states[n], events[n]);
  }

  lemma {:induction false} ReplyIsGood(states: seq<System>, events: seq<Event>, n: nat, sid: Tid, j: nat)
    requires IsRunOf(states, events) && n < |events| && Replies(states, events, n, sid, j)
    ensures GoodReply(states[n + 1].servers[sid], states[n + 1].servers[sid].replies[j])
    ensures states[n].servers[sid].replies <= states[n + 1].servers[sid].replies
  {
    RunServerOk(states, events, n, sid);
    RepliesNeedDelivery(states, events, n, sid, j, 0);
    StepKeeps(states[n].servers[sid], states[n].workers[events[n].w].out[sid][0]);
  }

  lemma {:induction false} CalledGrows(events: seq<Event>, n: nat, u: nat, w: Tid, sid: Tid, modelId: int)
    requires n <= u <= |events|
    ensures Called(events, n, w, sid, modelId) <= Called(events, u, w, sid, modelId)
    decreases u
  {
    if n < u {
      CalledGrows(events, n, u - 1, w, sid, modelId);
    }
  }

  lemma {:induction false} FewerClocksIsEarlier(sent: seq<Message>, called: seq<Message>, i: nat, modelId: int, w: Tid)
    requires sent <= called && i < |called| && CountClocks(called[..i], modelId, w) < CountClocks(sent, modelId, w)
    ensures i < |sent| && sent[i] == called[i]
  {
    if i >= |sent| {
      CountClocksPrefix(sent, called[..i], modelId, w);
    }
  }

  lemma {:induction false} DeliveredIsPrefix(states: seq<System>, events: seq<Event>, n: nat, w: Tid, sid: Tid)
    requires IsRunOf(states, events) && n <= |events| && sid in states[0].servers
    ensures SentBy(History(events, n, sid, states[0].modelId), w) <= Called(events, |events|, w, sid, states[0].modelId)
  {
    DeliveredOf(states, events, n, w, sid);
    CalledGrows(events, n, |events|, w, sid, states[0].modelId);
  }

  /** When a server replies, nobody is further behind the recipient than the staleness. */
  lemma {:induction false} NobodyFarBehind(states: seq<System>, events: seq<Event>, n: nat, sid: Tid, j: nat, w: Tid)
    requires IsRunOf(states, events) && n < |events| && Replies(states, events, n, sid, j)
    requires states[n + 1].servers[sid].replies[j].recver in states[0].workers && w in states[0].workers
    ensures var s := states[n + 1].servers[sid];
            var p, u := s.tracker.progresses, s.replies[j].recver;
            u in p && w in p && p[w] >= p[u] - states[0].staleness
  {
    RunShape(states, events, n + 1);
    RunServerOk(states, events, n + 1, sid);
    ReplyIsGood(states, events, n, sid, j);
  }

  lemma {:induction false} ReadsAreSums(states: seq<System>, events: seq<Event>, n: nat, sid: Tid, j: nat, w: Tid)
    requires IsRunOf(states, events) && n < |events| && sid in states[0].servers && states[0].servers[sid].storage == map[]
    requires Replies(states, events, n, sid, j) && w in states[0].workers
    ensures var r, h := states[n + 1].servers[sid].replies[j], History(events, n + 1, sid, states[0].modelId);
            |r.vals| == |r.keys| && forall x :: 0 <= x < |r.keys| ==> r.vals[x] == SumAdds(h, states[0].modelId, r.keys[x])
  {
    var r, h := states[n + 1].servers[sid].replies[j], History(events, n + 1, sid, states[0].modelId);
    ReplyIsGood(states, events, n, sid, j);
    forall x | 0 <= x < |r.keys| ensures r.vals[x] == SumAdds(h, states[0].modelId, r.keys[x]) {
      StorageIsDelivered(states, events, n + 1, sid, r.keys[x], w);
    }
  }

  /** CLOSED-LOOP READS. In every run from empty storage, take any Get reply that event `n`
      makes server `sid` send, and let `c` be the recipient's progress there. Every value in
      it is the sum of the Adds delivered to `sid` so far. Those include every message, in
      particular every Add, that any worker ever calls on `sid` before its
      (c - staleness)-th Clock. */
  lemma {:induction false} ReadsContainEarlierCalls(states: seq<System>, events: seq<Event>, n: nat, sid: Tid, j: nat, w: Tid, i: nat)
    requires IsRunOf(states, events) && n < |events| && sid in states[0].servers && states[0].servers[sid].storage == map[]
    requires Replies(states, events, n, sid, j) && states[n + 1].servers[sid].replies[j].recver in states[0].workers
    requires w in states[0].workers && i < |Called(events, |events|, w, sid, states[0].modelId)|
    ensures var s, modelId := states[n + 1].servers[sid], states[0].modelId;
            var r, h, called := s.replies[j], History(events, n + 1, sid, modelId), Called(events, |events|, w, sid, modelId);
            && r.recver in s.tracker.progresses && |r.vals| == |r.keys|
            && (forall x :: 0 <= x < |r.keys| ==> r.vals[x] == SumAdds(h, modelId, r.keys[x]))
            && (CountClocks(called[..i], modelId, w) < s.tracker.progresses[r.recver] - states[0].staleness ==>
                  i < |SentBy(h, w)| && SentBy(h, w)[i] == called[i])
  {
    var s, modelId := states[n + 1].servers[sid], states[0].modelId;
    var r, h, called := s.replies[j], History(events, n + 1, sid, modelId), Called(events, |events|, w, sid, modelId);
    NobodyFarBehind(states, events, n, sid, j, w);
    ReadsAreSums(states, events, n, sid, j, w);
    StorageIsDelivered(states, events, n + 1, sid, 0, w);
    DeliveredIsPrefix(states, events, n + 1, w, sid);
    if CountClocks(called[..i], modelId, w) < s.tracker.progresses[r.recver] - states[0].staleness {
      FewerClocksIsEarlier(SentBy(h, w), called, i, modelId, w);
    }
  }

  lemma {:induction false} MoreAnswered(a: seq<Reply>, b: seq<Reply>, j: nat, p: Message -> bool)
    requires a <= b && |a| <= j < |b| && b[j].GetReply? && p(RequestOf(b[j]))
    ensures CountAnswered(a, p) < CountAnswered(b, p)
  {
    var n := |b| - 1;
    if j == n {
      AnsweredGrows(a, b[..n], p);
    } else {
      MoreAnswered(a, b[..n], j, p);
    }
  }

  lemma {:induction false} UnseenReplyEmptiesChannel(modelId: int, u: Tid, k: Worker, sid: Tid, s: Ssp)
    requires PairOk(modelId, u, k, sid, s) && RepliesTo(s, u) > k.seen[sid]
    ensures s.tracker.progresses[u] == k.clock
  {
  }

  lemma {:induction false} RunPair(states: seq<System>, events: seq<Event>, n: nat, w: Tid, sid: Tid)
    requires IsRunOf(states, events) && n <= |events| && w in states[n].workers && sid in states[n].servers
    ensures PairOk(states[n].modelId, w, states[n].workers[w], sid, states[n].servers[sid])
  {
    RunInvariant(states, events, n);
  }

  /** The recipient's progress at the server is the number of Clocks it has called itself: a
      worker that waits for a reply has nothing left in that channel. */
  lemma {:induction false} ReplyFindsOwnClock(states: seq<System>, events: seq<Event>, n: nat, sid: Tid, j: nat)
    requires IsRunOf(states, events) && n < |events| && Replies(states, events, n, sid, j)
    requires states[n + 1].servers[sid].replies[j].recver in states[0].workers
    ensures var s := states[n + 1].servers[sid];
            var u := s.replies[j].recver;
            && u in s.tracker.progresses && u in states[n + 1].workers
            && s.tracker.progresses[u] == states[n + 1].workers[u].clock
  {
    var y, y', u := states[n], states[n + 1], states[n + 1].servers[sid].replies[j].recver;
    RunShape(states, events, n);
    RunShape(states, events, n + 1);
    ReplyIsGood(states, events, n, sid, j);
    MoreAnswered(y.servers[sid].replies, y'.servers[sid].replies, j, From(u));
    RepliesNeedDelivery(states, events, n, sid, j, u);
    RunPair(states, events, n, u, sid);
    RunPair(states, events, n + 1, u, sid);
    UnseenReplyEmptiesChannel(y'.modelId, u, y'.workers[u], sid, y'.servers[sid]);
  }
}
