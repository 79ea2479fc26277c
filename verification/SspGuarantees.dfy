/** What the SSP controller guarantees over every run: the staleness bound on reads, and
    the conservation of Get requests, both across worker resets. */
module SspGuarantees {
  import opened Messages
  import opened MachineInts
  import opened ProgressTracking
  import opened PendingMessages
  import opened KeyValueStorage
  import opened SspModel
  import opened Sequences

  /* ----- Runs ----- */

  /** A new controller; the cached minimum of its tracker is unset. */
  predicate Initial(s: Ssp) {
    && 0 <= s.staleness <= INT_MAX
    && s.tracker.progresses == map[] && s.pending == map[]
    && s.storage == map[] && s.replies == []
  }

  /** What the source demands of a message: the storage's fatal check on Add, and a clock
      that does not overflow an int. */
  predicate Allowed(s: Ssp, m: Message) {
    && WellFormed(m)
    && (m.op.Clock? && m.modelId == s.modelId && s.tracker.Registered(m.sender) ==>
          s.tracker.progresses[m.sender] < INT_MAX)
  }

  predicate IsStep(s: Ssp, m: Message, s': Ssp) {
    Allowed(s, m) && s.HoldsWellFormed() && s' == s.Step(m)
  }

  /** `states[i]` is the state before message `h[i]`, for every message sequence `h`. */
  ghost predicate IsRun(states: seq<Ssp>, h: seq<Message>) {
    && |states| == |h| + 1
    && Initial(states[0])
    && forall i :: 0 <= i < |h| ==> IsStep(states[i], h[i], states[i + 1])
  }

  /* ----- What a history says, independently of the controller ----- */

  /** What message `m` adds to key `k` of this model. */
  function Contribution(m: Message, modelId: int, k: Key): Val {
    if m.op.Add? && m.modelId == modelId && WellFormed(m) then Total(m.op.keys, m.op.vals, k) else 0
  }

  /** The sum, for key `k`, of all Adds to this model in `h`. */
  function SumAdds(h: seq<Message>, modelId: int, k: Key): Val {
    if h == [] then 0
    else SumAdds(h[..|h| - 1], modelId, k) + Contribution(h[|h| - 1], modelId, k)
  }

  predicate Resets(m: Message, w: Tid) {
    m.op.ResetWorkers? && w in m.op.tids
  }

  predicate IsClockOf(m: Message, modelId: int, w: Tid) {
    m.op.Clock? && m.modelId == modelId && m.sender == w
  }

  /** The messages after the last one that registered `w`. */
  function SinceReset(h: seq<Message>, w: Tid): seq<Message> {
    if h == [] then []
    else
      var m := h[|h| - 1];
      if Resets(m, w) then [] else SinceReset(h[..|h| - 1], w) + [m]
  }

  function CountClocks(h: seq<Message>, modelId: int, w: Tid): nat {
    if h == [] then 0
    else CountClocks(h[..|h| - 1], modelId, w) + if IsClockOf(h[|h| - 1], modelId, w) then 1 else 0
  }

  /** How many Clocks of `w` the server has processed since it registered `w`. */
  function ClocksOf(h: seq<Message>, modelId: int, w: Tid): nat {
    CountClocks(SinceReset(h, w), modelId, w)
  }

  predicate IsGetFor(m: Message, modelId: int) {
    m.op.Get? && m.modelId == modelId
  }

  /** How many Get requests for this model in `h` satisfy `p`. */
  function CountGets(h: seq<Message>, modelId: int, p: Message -> bool): nat {
    if h == [] then 0
    else
      var m := h[|h| - 1];
      CountGets(h[..|h| - 1], modelId, p) + if IsGetFor(m, modelId) && p(m) then 1 else 0
  }

  /** How many Get replies answer a request that satisfies `p`. */
  function CountAnswered(rs: seq<Reply>, p: Message -> bool): nat {
    if rs == [] then 0
    else
      var r := rs[|rs| - 1];
      CountAnswered(rs[..|rs| - 1], p) + if r.GetReply? && p(RequestOf(r)) then 1 else 0
  }

  /* ----- The invariant of a single state ----- */

  ghost predicate Config(s: Ssp) {
    && 0 <= s.staleness <= INT_MAX
    && s.tracker.LowerBound()
    && forall w :: w in s.tracker.progresses ==> s.tracker.progresses[w] <= INT_MAX
  }

  /** The negative clock under which the Gets of unregistered senders are deferred. */
  function StrandedClock(s: Ssp): int {
    -1 - s.staleness
  }

  /** A held message is a Get. It waits either for a clock above the minimum, and then its
      sender is registered, or under the one negative clock. */
  ghost predicate WaitsRightly(s: Ssp, k: int, q: Message) {
    IsGetFor(q, s.modelId) && (k == StrandedClock(s) || (k > s.tracker.minClock && s.tracker.Registered(q.sender)))
  }

  ghost predicate HeldOk(s: Ssp) {
    forall k, i :: k in s.pending && 0 <= i < |s.pending[k]| ==> WaitsRightly(s, k, s.pending[k][i])
  }

  /** Requests that were answered or are held, counted with `p`. */
  ghost function Accounted(s: Ssp, p: Message -> bool): nat {
    CountAnswered(s.replies, p) + Tally(s.pending, p)
  }

  /** The reply carries the stored value of every key it lists, and if its recipient is
      registered then it was within the staleness bound. */
  ghost predicate GoodReply(s: Ssp, r: Reply) {
    r.GetReply? ==>
      && |r.vals| == |r.keys|
      && (forall i :: 0 <= i < |r.keys| ==> r.vals[i] == Lookup(s.storage, r.keys[i]))
      && (s.tracker.Registered(r.recver) ==>
            s.tracker.progresses[r.recver] - s.tracker.minClock <= s.staleness)
  }

  lemma {:induction false} HeldOkIsWellFormed(s: Ssp)
    requires HeldOk(s)
    ensures s.HoldsWellFormed()
  {
    forall k, m | k in s.pending && m in s.pending[k]
      ensures WellFormed(m)
    {
      var i :| 0 <= i < |s.pending[k]| && s.pending[k][i] == m;
      assert WaitsRightly(s, k, s.pending[k][i]);
    }
  }

  /* ----- One Get, and a replay of Gets ----- */

  /** The replies that feeding `ms` to `Get` produces at the present clocks, in order. */
  function Answers(s: Ssp, ms: seq<Message>): seq<Reply>
    requires forall m :: m in ms ==> m.op.Get?
  {
    if ms == [] then []
    else
      var q := ms[|ms| - 1];
      Answers(s, ms[..|ms| - 1]) + if s.Defers(q.sender) then [] else [ReplyTo(q, s.storage)]
  }

  lemma {:induction false} PushKeepsHeldOk(s: Ssp, c: int, q: Message)
    requires HeldOk(s) && WaitsRightly(s, c, q)
    ensures HeldOk(s.(pending := Push(s.pending, c, q)))
  {
    var s' := s.(pending := Push(s.pending, c, q));
    forall k, i | k in s'.pending && 0 <= i < |s'.pending[k]|
      ensures WaitsRightly(s', k, s'.pending[k][i])
    {
      if k == c && i == |s'.pending[k]| - 1 {
        assert s'.pending[k][i] == q;
      } else {
        assert k in s.pending && s'.pending[k][i] == s.pending[k][i];
        assert WaitsRightly(s, k, s.pending[k][i]);
      }
    }
  }

  lemma {:induction false} GetFacts(s: Ssp, q: Message)
    requires Config(s) && HeldOk(s) && IsGetFor(q, s.modelId)
    ensures var s' := s.Get(q);
            && s'.modelId == s.modelId && s'.staleness == s.staleness && s'.tracker == s.tracker
            && (forall k :: Lookup(s'.storage, k) == Lookup(s.storage, k))
            && (forall k :: HeldAt(s.pending, k) <= HeldAt(s'.pending, k))
            && HeldOk(s')
            && s'.replies == s.replies + (if s.Defers(q.sender) then [] else [ReplyTo(q, s.storage)])
            && (s.Defers(q.sender) ==> q in HeldAt(s'.pending, s.BarrierClock(q.sender)))
  {
    if s.Defers(q.sender) {
      if s.tracker.Registered(q.sender) {
        DefersIffTooFarAhead(s, q.sender);
      } else {
        UnregisteredIsDeferred(s, q.sender);
      }
      PushKeepsHeldOk(s, s.BarrierClock(q.sender), q);
    } else {
      forall k ensures Lookup(s.Get(q).storage, k) == Lookup(s.storage, k) {
        TouchKeepsLookup(s.storage, q.op.keys, k);
      }
    }
  }

  lemma {:induction false} GetAccounted(s: Ssp, q: Message, p: Message -> bool)
    requires IsGetFor(q, s.modelId)
    ensures Accounted(s.Get(q), p) == Accounted(s, p) + if p(q) then 1 else 0
  {
    if s.Defers(q.sender) {
      TallyPush(s.pending, s.BarrierClock(q.sender), q, p);
    } else {
      var rs := s.replies + [ReplyTo(q, s.storage)];
      assert rs[..|rs| - 1] == s.replies;
      assert RequestOf(ReplyTo(q, s.storage)) == q;
    }
  }

  predicate AllGets(ms: seq<Message>, modelId: int) {
    forall m :: m in ms ==> IsGetFor(m, modelId)
  }

  lemma {:induction false} ReplayFrame(s: Ssp, ms: seq<Message>)
    requires Config(s) && HeldOk(s) && AllGets(ms, s.modelId)
    ensures var s' := s.Replay(ms);
            && s'.modelId == s.modelId && s'.staleness == s.staleness && s'.tracker == s.tracker
            && (forall k :: Lookup(s'.storage, k) == Lookup(s.storage, k))
            && HeldOk(s')
    decreases |ms|
  {
    if ms != [] {
      var rest, q := ms[..|ms| - 1], ms[|ms| - 1];
      assert q in ms;
      ReplayFrame(s, rest);
      GetFacts(s.Replay(rest), q);
    }
  }

  lemma {:induction false} ReplayLast(s: Ssp, ms: seq<Message>)
    requires AllGets(ms, s.modelId) && ms != []
    ensures var rest, q := ms[..|ms| - 1], ms[|ms| - 1];
            AllGets(rest, s.modelId) && q.op.Get? && s.Replay(ms) == s.Replay(rest).Get(q)
  {
    assert ms[|ms| - 1] in ms;
  }

  lemma {:induction false} ReplayReplies(s: Ssp, ms: seq<Message>)
    requires Config(s) && HeldOk(s) && AllGets(ms, s.modelId)
    ensures s.Replay(ms).replies == s.replies + Answers(s, ms)
    decreases |ms|
  {
    if ms != [] {
      var rest, q := ms[..|ms| - 1], ms[|ms| - 1];
      assert q in ms;
      ReplayReplies(s, rest);
      ReplayFrame(s, rest);
      var mid, last := s.Replay(rest), if s.Defers(q.sender) then [] else [ReplyTo(q, s.storage)];
      ReadAllCongruent(mid.storage, s.storage, q.op.keys);
      ReplayLast(s, ms);
      assert mid.Get(q).replies == mid.replies + last;
      Regroup(s.replies, Answers(s, rest), last);
    }
  }

  /** Those of `ms` that are deferred, at the present clocks, until clock `k`. */
  function Requeued(s: Ssp, ms: seq<Message>, k: int): seq<Message> {
    if ms == [] then []
    else
      var q := ms[|ms| - 1];
      Requeued(s, ms[..|ms| - 1], k) + if s.Defers(q.sender) && s.BarrierClock(q.sender) == k then [q] else []
  }

  lemma {:induction false} GetHolds(s: Ssp, q: Message, k: int)
    requires IsGetFor(q, s.modelId)
    ensures HeldAt(s.Get(q).pending, k) ==
            HeldAt(s.pending, k) + if s.Defers(q.sender) && s.BarrierClock(q.sender) == k then [q] else []
  {
  }

  lemma {:induction false} ReplayClocks(s: Ssp, ms: seq<Message>)
    requires AllGets(ms, s.modelId)
    ensures var s' := s.Replay(ms);
            s'.modelId == s.modelId && s'.staleness == s.staleness && s'.tracker == s.tracker
    decreases |ms|
  {
    if ms != [] {
      assert ms[|ms| - 1] in ms;
      ReplayClocks(s, ms[..|ms| - 1]);
    }
  }

  lemma {:induction false} ReplayHolds(s: Ssp, ms: seq<Message>, k: int)
    requires AllGets(ms, s.modelId)
    ensures HeldAt(s.Replay(ms).pending, k) == HeldAt(s.pending, k) + Requeued(s, ms, k)
    decreases |ms|
  {
    if ms != [] {
      var rest, q := ms[..|ms| - 1], ms[|ms| - 1];
      assert q in ms;
      var last := if s.Defers(q.sender) && s.BarrierClock(q.sender) == k then [q] else [];
      ReplayHolds(s, rest, k);
      ReplayClocks(s, rest);
      GetHolds(s.Replay(rest), q, k);
      ReplayLast(s, ms);
      Regroup(HeldAt(s.pending, k), Requeued(s, rest, k), last);
    }
  }

  lemma {:induction false} RequeuedMember(s: Ssp, ms: seq<Message>, q: Message)
    requires q in ms && s.Defers(q.sender)
    ensures q in Requeued(s, ms, s.BarrierClock(q.sender))
  {
    if ms[|ms| - 1] != q {
      RequeuedMember(s, ms[..|ms| - 1], q);
    }
  }

  lemma {:induction false} NoneRequeued(s: Ssp, ms: seq<Message>, k: int)
    requires forall q :: q in ms ==> !(s.Defers(q.sender) && s.BarrierClock(q.sender) == k)
    ensures Requeued(s, ms, k) == []
  {
    if ms != [] {
      assert ms[|ms| - 1] in ms;
      NoneRequeued(s, ms[..|ms| - 1], k);
    }
  }

  lemma {:induction false} ReplayFacts(s: Ssp, ms: seq<Message>)
    requires Config(s) && HeldOk(s) && AllGets(ms, s.modelId)
    ensures var s' := s.Replay(ms);
            && s'.modelId == s.modelId && s'.staleness == s.staleness && s'.tracker == s.tracker
            && (forall k :: Lookup(s'.storage, k) == Lookup(s.storage, k))
            && (forall k :: HeldAt(s.pending, k) <= HeldAt(s'.pending, k))
            && HeldOk(s')
            && s'.replies == s.replies + Answers(s, ms)
            && (forall q :: q in ms && s.Defers(q.sender) ==> q in HeldAt(s'.pending, s.BarrierClock(q.sender)))
  {
    ReplayFrame(s, ms);
    ReplayReplies(s, ms);
    forall k ensures HeldAt(s.Replay(ms).pending, k) == HeldAt(s.pending, k) + Requeued(s, ms, k) {
      ReplayHolds(s, ms, k);
    }
    forall q | q in ms && s.Defers(q.sender)
      ensures q in HeldAt(s.Replay(ms).pending, s.BarrierClock(q.sender))
    {
      RequeuedMember(s, ms, q);
    }
  }

  lemma {:induction false} ReplayAccounted(s: Ssp, ms: seq<Message>, p: Message -> bool)
    requires AllGets(ms, s.modelId)
    ensures s.Replay(ms).modelId == s.modelId
    ensures Accounted(s.Replay(ms), p) == Accounted(s, p) + Count(ms, p)
    decreases |ms|
  {
    if ms != [] {
      var rest, q := ms[..|ms| - 1], ms[|ms| - 1];
      assert ms == rest + [q];
      ReplayAccounted(s, rest, p);
      GetAccounted(s.Replay(rest), q, p);
    }
  }

  lemma {:induction false} AnswersAreGood(s: Ssp, ms: seq<Message>)
    requires Config(s) && forall m :: m in ms ==> m.op.Get?
    ensures forall r :: r in Answers(s, ms) ==> r.GetReply? && GoodReply(s, r)
  {
    if ms != [] {
      var q := ms[|ms| - 1];
      AnswersAreGood(s, ms[..|ms| - 1]);
      if s.tracker.Registered(q.sender) {
        DefersIffTooFarAhead(s, q.sender);
      }
    }
  }

  lemma {:induction false} AnswersAnswer(s: Ssp, ms: seq<Message>, q: Message)
    requires (forall m :: m in ms ==> m.op.Get?) && q in ms && !s.Defers(q.sender)
    ensures ReplyTo(q, s.storage) in Answers(s, ms)
  {
    if ms[|ms| - 1] != q {
      AnswersAnswer(s, ms[..|ms| - 1], q);
    }
  }

  /** The state in which a Clock that raises the minimum starts to replay. */
  function Due(s: Ssp, m: Message): Ssp {
    s.(tracker := s.tracker.Advance(m.sender),
       pending := Without(s.pending, s.tracker.ChangedMinClock(m.sender)))
  }

  lemma {:induction false} DueIsOk(s: Ssp, m: Message)
    requires Config(s) && HeldOk(s) && Allowed(s, m) && m.op.Clock? && m.modelId == s.modelId
    requires s.tracker.ChangedMinClock(m.sender) > -1
    ensures var ms := HeldAt(s.pending, s.tracker.ChangedMinClock(m.sender));
            Config(Due(s, m)) && HeldOk(Due(s, m)) && AllGets(ms, s.modelId)
  {
    AdvanceKeepsLowerBound(s.tracker, m.sender);
    var c := s.tracker.ChangedMinClock(m.sender);
    var ms := HeldAt(s.pending, c);
    forall q | q in ms ensures IsGetFor(q, s.modelId) {
      var i :| 0 <= i < |ms| && ms[i] == q;
      assert WaitsRightly(s, c, s.pending[c][i]);
    }
    var d := Due(s, m);
    forall k, i | k in d.pending && 0 <= i < |d.pending[k]|
      ensures WaitsRightly(d, k, d.pending[k][i])
    {
      assert k in s.pending && WaitsRightly(s, k, s.pending[k][i]);
    }
  }

  /* ----- One step ----- */

  lemma {:induction false} ClockKeeps(s: Ssp, m: Message)
    requires Config(s) && HeldOk(s) && Allowed(s, m) && m.op.Clock? && m.modelId == s.modelId
    requires s.HoldsWellFormed() && s.tracker.ChangedMinClock(m.sender) > -1
    ensures var s' := s.Clock(m);
            && Config(s') && HeldOk(s')
            && s'.modelId == s.modelId && s'.staleness == s.staleness
            && s.replies <= s'.replies
            && (forall j :: |s.replies| <= j < |s'.replies| ==> GoodReply(s', s'.replies[j]))
  {
    var d, ms := Due(s, m), HeldAt(s.pending, s.tracker.ChangedMinClock(m.sender));
    DueIsOk(s, m);
    ReplayFacts(d, ms);
    AnswersAreGood(d, ms);
  }

  lemma {:induction false} GetKeeps(s: Ssp, m: Message)
    requires Config(s) && HeldOk(s) && IsGetFor(m, s.modelId)
    ensures var s' := s.Get(m);
            && Config(s') && HeldOk(s')
            && s'.modelId == s.modelId && s'.staleness == s.staleness
            && s.replies <= s'.replies
            && (forall j :: |s.replies| <= j < |s'.replies| ==> GoodReply(s', s'.replies[j]))
  {
    GetFacts(s, m);
    if s.tracker.Registered(m.sender) {
      DefersIffTooFarAhead(s, m.sender);
    }
    if !s.Defers(m.sender) {
      assert GoodReply(s, ReplyTo(m, s.storage));
    }
  }

  /** Every step keeps the state invariant and only appends replies, all of them good. */
  lemma {:induction false} StepKeeps(s: Ssp, m: Message)
    requires Config(s) && HeldOk(s) && Allowed(s, m)
    ensures s.HoldsWellFormed()
    ensures var s' := s.Step(m);
            && Config(s') && HeldOk(s')
            && s'.modelId == s.modelId && s'.staleness == s.staleness
            && s.replies <= s'.replies
            && (forall j :: |s.replies| <= j < |s'.replies| ==> GoodReply(s', s'.replies[j]))
  {
    HeldOkIsWellFormed(s);
    var s' := s.Step(m);
    match m.op
    case Clock =>
      if m.modelId == s.modelId {
        AdvanceKeepsLowerBound(s.tracker, m.sender);
        if s.tracker.ChangedMinClock(m.sender) > -1 {
          ClockKeeps(s, m);
        }
      }
    case Add(_, _) =>
    case Get(_) =>
      if m.modelId == s.modelId {
        GetKeeps(s, m);
      }
    case ResetWorkers(tids) =>
      InitKeepsLowerBound(s.tracker, tids);
  }

  /** A step accounts for exactly the Get it receives, if any: no Get is lost, duplicated
      or invented, whichever requests `p` selects. */
  lemma {:induction false} StepAccounted(s: Ssp, m: Message, p: Message -> bool)
    requires Config(s) && HeldOk(s) && Allowed(s, m)
    ensures s.HoldsWellFormed()
    ensures Accounted(s.Step(m), p) == Accounted(s, p) + if IsGetFor(m, s.modelId) && p(m) then 1 else 0
  {
    HeldOkIsWellFormed(s);
    match m.op
    case Clock =>
      if m.modelId == s.modelId {
        var c := s.tracker.ChangedMinClock(m.sender);
        if c > -1 {
          DueIsOk(s, m);
          ReplayAccounted(Due(s, m), HeldAt(s.pending, c), p);
          TallySplit(s.pending, c, p);
        }
      }
    case Add(_, _) =>
    case Get(_) =>
      if m.modelId == s.modelId {
        GetAccounted(s, m, p);
      }
    case ResetWorkers(tids) =>
      var rs := s.replies + [ResetReply(m.recver, m.sender)];
      assert rs[..|rs| - 1] == s.replies;
  }

  /* ----- Whole runs ----- */

  /** The invariant of a run that has processed `h`: storage is the sum of all Adds in `h`,
      every progress is a count of Clocks in `h`, and every Get in `h` is accounted for. */
  ghost predicate RunInv(s: Ssp, h: seq<Message>) {
    && Config(s) && HeldOk(s)
    && (forall k :: Lookup(s.storage, k) == SumAdds(h, s.modelId, k))
    && (forall w :: w in s.tracker.progresses ==> s.tracker.progresses[w] == ClocksOf(h, s.modelId, w))
    && (forall p: Message -> bool :: Accounted(s, p) == CountGets(h, s.modelId, p))
  }

  lemma {:induction false} StepStorage(s: Ssp, h: seq<Message>, m: Message, k: Key)
    requires RunInv(s, h) && Allowed(s, m)
    ensures s.HoldsWellFormed()
    ensures Lookup(s.Step(m).storage, k) == SumAdds(h + [m], s.modelId, k)
  {
    HeldOkIsWellFormed(s);
    assert (h + [m])[..|h|] == h;
    match m.op
    case Clock =>
      if m.modelId == s.modelId && s.tracker.ChangedMinClock(m.sender) > -1 {
        DueIsOk(s, m);
        ReplayFacts(Due(s, m), HeldAt(s.pending, s.tracker.ChangedMinClock(m.sender)));
      }
    case Add(keys, vals) => AddPairsAdds(s.storage, keys, vals, k);
    case Get(keys) => TouchKeepsLookup(s.storage, keys, k);
    case ResetWorkers(_) =>
  }

  lemma {:induction false} StepTracker(s: Ssp, m: Message)
    requires Config(s) && HeldOk(s) && Allowed(s, m)
    ensures s.HoldsWellFormed()
    ensures s.Step(m).tracker ==
            if m.op.ResetWorkers? then s.tracker.Init(m.op.tids)
            else if m.op.Clock? && m.modelId == s.modelId then s.tracker.Advance(m.sender)
            else s.tracker
  {
    HeldOkIsWellFormed(s);
    if m.op.Clock? && m.modelId == s.modelId && s.tracker.ChangedMinClock(m.sender) > -1 {
      DueIsOk(s, m);
      ReplayFacts(Due(s, m), HeldAt(s.pending, s.tracker.ChangedMinClock(m.sender)));
    }
  }

  lemma {:induction false} ClocksOfExtend(h: seq<Message>, m: Message, modelId: int, w: Tid)
    ensures ClocksOf(h + [m], modelId, w) ==
            if Resets(m, w) then 0
            else ClocksOf(h, modelId, w) + if IsClockOf(m, modelId, w) then 1 else 0
  {
    assert (h + [m])[..|h|] == h;
    if !Resets(m, w) {
      var since := SinceReset(h, w);
      assert SinceReset(h + [m], w) == since + [m];
      assert (since + [m])[..|since|] == since;
    }
  }

  lemma {:induction false} StepKeepsRunInv(s: Ssp, h: seq<Message>, m: Message)
    requires RunInv(s, h) && Allowed(s, m)
    ensures s.HoldsWellFormed() && RunInv(s.Step(m), h + [m])
  {
    StepKeeps(s, m);
    StepTracker(s, m);
    var s' := s.Step(m);
    forall k ensures Lookup(s'.storage, k) == SumAdds(h + [m], s.modelId, k) {
      StepStorage(s, h, m, k);
    }
    forall w | w in s'.tracker.progresses
      ensures s'.tracker.progresses[w] == ClocksOf(h + [m], s.modelId, w)
    {
      ClocksOfExtend(h, m, s.modelId, w);
    }
    assert (h + [m])[..|h|] == h;
    forall p: Message -> bool ensures Accounted(s', p) == CountGets(h + [m], s.modelId, p) {
      StepAccounted(s, m, p);
    }
  }

  lemma {:induction false} RunInvHolds(states: seq<Ssp>, h: seq<Message>, n: nat)
    requires IsRun(states, h) && n <= |h|
    ensures RunInv(states[n], h[..n])
    ensures states[n].modelId == states[0].modelId && states[n].staleness == states[0].staleness
  {
    if n == 0 {
      assert h[..0] == [];
    } else {
      RunInvHolds(states, h, n - 1);
      assert IsStep(states[n - 1], h[n - 1], states[n]);
      StepKeepsRunInv(states[n - 1], h[..n - 1], h[n - 1]);
      StepKeeps(states[n - 1], h[n - 1]);
      assert h[..n] == h[..n - 1] + [h[n - 1]];
    }
  }

  /** The part of it that says what a state of a run looks like, and which step follows. */
  lemma {:induction false} RunStateOk(states: seq<Ssp>, h: seq<Message>, n: nat)
    requires IsRun(states, h) && n <= |h|
    ensures Config(states[n]) && HeldOk(states[n])
    ensures states[n].modelId == states[0].modelId && states[n].staleness == states[0].staleness
    ensures n < |h| ==> Allowed(states[n], h[n]) && states[n].HoldsWellFormed() && states[n + 1] == states[n].Step(h[n])
  {
    RunInvHolds(states, h, n);
    assert n < |h| ==> IsStep(states[n], h[n], states[n + 1]);
  }

  /** READ GUARANTEE. Take any run and any Get reply emitted while message `n` is handled.
      Every value in it is the sum of all Adds processed so far, and if the recipient is
      registered, then every registered worker has clocked, since its own registration, at
      least as often as the recipient has less the staleness. */
  lemma {:induction false} ReadGuarantee(states: seq<Ssp>, h: seq<Message>, n: nat, j: nat)
    requires IsRun(states, h) && n < |h|
    requires |states[n].replies| <= j < |states[n + 1].replies|
    requires states[n + 1].replies[j].GetReply?
    ensures var s, r, seen := states[n + 1], states[n + 1].replies[j], h[..n + 1];
            && |r.vals| == |r.keys|
            && (forall i :: 0 <= i < |r.keys| ==> r.vals[i] == SumAdds(seen, s.modelId, r.keys[i]))
            && (s.tracker.Registered(r.recver) ==>
                  forall w :: s.tracker.Registered(w) ==>
                    ClocksOf(seen, s.modelId, w) >= ClocksOf(seen, s.modelId, r.recver) - s.staleness)
  {
    RunInvHolds(states, h, n);
    RunInvHolds(states, h, n + 1);
    assert IsStep(states[n], h[n], states[n + 1]);
    StepKeeps(states[n], h[n]);
    assert GoodReply(states[n + 1], states[n + 1].replies[j]);
  }

  /** The messages that `w` itself sent, in order. */
  function SentBy(h: seq<Message>, w: Tid): seq<Message> {
    if h == [] then []
    else
      var m := h[|h| - 1];
      SentBy(h[..|h| - 1], w) + if m.sender == w then [m] else []
  }

  lemma {:induction false} CountClocksSent(h: seq<Message>, modelId: int, w: Tid)
    ensures CountClocks(SentBy(h, w), modelId, w) == CountClocks(h, modelId, w)
  {
    if h != [] {
      var rest, m := h[..|h| - 1], h[|h| - 1];
      var sent := SentBy(rest, w);
      CountClocksSent(rest, modelId, w);
      if m.sender == w {
        assert SentBy(h, w) == sent + [m];
        assert (sent + [m])[..|sent|] == sent;
      } else {
        assert SentBy(h, w) == sent + [] == sent;
      }
    }
  }

  lemma {:induction false} CountClocksPrefix(a: seq<Message>, b: seq<Message>, modelId: int, w: Tid)
    requires a <= b
    ensures CountClocks(a, modelId, w) <= CountClocks(b, modelId, w)
  {
    if |a| < |b| {
      CountClocksPrefix(a, b[..|b| - 1], modelId, w);
    } else {
      assert a == b;
    }
  }

  /** FRESHNESS. Let `sent` be everything a registered worker `w` sends after its
      registration, delivered first-in first-out, so that what the server has processed of
      it is a prefix. Then the answer to a recipient at clock `c` already contains every
      message that `w` sends before its (c - staleness)-th Clock, in particular every Add. */
  lemma {:induction false} ReadContainsEarlierAdds(states: seq<Ssp>, h: seq<Message>, n: nat, j: nat,
                                                   w: Tid, sent: seq<Message>, i: nat)
    requires IsRun(states, h) && n < |h|
    requires |states[n].replies| <= j < |states[n + 1].replies|
    requires states[n + 1].replies[j].GetReply?
    requires states[n + 1].tracker.Registered(states[n + 1].replies[j].recver)
    requires states[n + 1].tracker.Registered(w)
    requires SentBy(SinceReset(h[..n + 1], w), w) <= sent
    requires i < |sent|
    requires var s, seen := states[n + 1], h[..n + 1];
             CountClocks(sent[..i], s.modelId, w) < ClocksOf(seen, s.modelId, s.replies[j].recver) - s.staleness
    ensures var processed := SentBy(SinceReset(h[..n + 1], w), w);
            i < |processed| && processed[i] == sent[i]
  {
    ReadGuarantee(states, h, n, j);
    var modelId := states[n + 1].modelId;
    var since := SinceReset(h[..n + 1], w);
    CountClocksSent(since, modelId, w);
    if i >= |SentBy(since, w)| {
      CountClocksPrefix(SentBy(since, w), sent[..i], modelId, w);
    }
  }

  /* ----- Replay ----- */

  lemma {:induction false} ClockReplays(s: Ssp, m: Message)
    requires Config(s) && HeldOk(s) && Allowed(s, m) && m.op.Clock? && m.modelId == s.modelId
    requires s.tracker.ChangedMinClock(m.sender) > -1
    ensures s.HoldsWellFormed()
    ensures var due := HeldAt(s.pending, s.tracker.ChangedMinClock(m.sender));
            AllGets(due, s.modelId) && s.Step(m) == Due(s, m).Replay(due)
  {
    HeldOkIsWellFormed(s);
    DueIsOk(s, m);
  }

  lemma {:induction false} DueRequest(s: Ssp, m: Message, q: Message)
    requires Config(s) && HeldOk(s) && Allowed(s, m) && m.op.Clock? && m.modelId == s.modelId
    requires s.tracker.ChangedMinClock(m.sender) > -1
    requires q in HeldAt(s.pending, s.tracker.ChangedMinClock(m.sender))
    ensures Due(s, m).tracker.minClock == s.tracker.ChangedMinClock(m.sender)
    ensures Due(s, m).tracker.Registered(q.sender)
    ensures var k := Due(s, m).tracker.progresses[q.sender] - s.staleness;
            (Due(s, m).Defers(q.sender) <==> k > Due(s, m).tracker.minClock) && Due(s, m).BarrierClock(q.sender) == k
  {
    var c := s.tracker.ChangedMinClock(m.sender);
    DueIsOk(s, m);
    var i :| 0 <= i < |s.pending[c]| && s.pending[c][i] == q;
    assert WaitsRightly(s, c, s.pending[c][i]);
    DefersIffTooFarAhead(Due(s, m), q.sender);
  }

  /** A request due at `c`, replayed from `d` to `s'`: it is deferred exactly if its sender is
      now beyond `c + staleness`, and then it waits under a strictly larger clock. */
  ghost predicate ReplayedRightly(d: Ssp, c: int, q: Message, s': Ssp) {
    && s'.tracker.Registered(q.sender)
    && (d.Defers(q.sender) <==> s'.tracker.progresses[q.sender] > c + d.staleness)
    && (d.Defers(q.sender) ==>
          var k := s'.tracker.progresses[q.sender] - d.staleness;
          k > c && q in HeldAt(s'.pending, k))
  }

  lemma {:induction false} RequestReplayedRightly(s: Ssp, m: Message, q: Message, s': Ssp)
    requires Config(s) && HeldOk(s) && Allowed(s, m) && m.op.Clock? && m.modelId == s.modelId
    requires s.tracker.ChangedMinClock(m.sender) > -1
    requires q in HeldAt(s.pending, s.tracker.ChangedMinClock(m.sender))
    requires s'.tracker == Due(s, m).tracker
    requires Due(s, m).Defers(q.sender) ==> q in HeldAt(s'.pending, Due(s, m).BarrierClock(q.sender))
    ensures ReplayedRightly(Due(s, m), s.tracker.ChangedMinClock(m.sender), q, s')
  {
    DueRequest(s, m, q);
  }

  /** REPLAY. A Clock that raises the minimum to `c` answers, in arrival order, exactly
      those requests due at `c` whose sender is now at most `c + staleness`; every other
      one is put back under a strictly larger clock. */
  lemma {:induction false} ReplayOutcome(s: Ssp, m: Message)
    requires Config(s) && HeldOk(s) && Allowed(s, m) && m.op.Clock? && m.modelId == s.modelId
    requires s.tracker.ChangedMinClock(m.sender) > -1
    ensures s.HoldsWellFormed()
    ensures var c, s' := s.tracker.ChangedMinClock(m.sender), s.Step(m);
            var due := HeldAt(s.pending, c);
            && AllGets(due, s.modelId)
            && s'.replies == s.replies + Answers(Due(s, m), due)
            && forall q :: q in due ==> ReplayedRightly(Due(s, m), c, q, s')
  {
    ClockReplays(s, m);
    var d, s', due := Due(s, m), s.Step(m), HeldAt(s.pending, s.tracker.ChangedMinClock(m.sender));
    DueIsOk(s, m);
    ReplayFacts(d, due);
    forall q | q in due
      ensures ReplayedRightly(d, s.tracker.ChangedMinClock(m.sender), q, s')
    {
      RequestReplayedRightly(s, m, q, s');
    }
  }

  /* ----- Registrations ----- */

  lemma {:induction false} ClockAnswersGets(s: Ssp, m: Message)
    requires Config(s) && HeldOk(s) && Allowed(s, m) && m.op.Clock?
    ensures s.HoldsWellFormed() && ResetsIn(s.Step(m).replies) == ResetsIn(s.replies)
  {
    HeldOkIsWellFormed(s);
    if m.modelId == s.modelId && s.tracker.ChangedMinClock(m.sender) > -1 {
      var d, due := Due(s, m), HeldAt(s.pending, s.tracker.ChangedMinClock(m.sender));
      ClockReplays(s, m);
      DueIsOk(s, m);
      ReplayReplies(d, due);
      AnswersAreGood(d, due);
      ResetsInConcat(s.replies, Answers(d, due));
    }
  }

  lemma {:induction false} StepAnswersResets(s: Ssp, m: Message)
    requires Config(s) && HeldOk(s) && Allowed(s, m)
    ensures s.HoldsWellFormed()
    ensures ResetsIn(s.Step(m).replies) ==
            ResetsIn(s.replies) + if m.op.ResetWorkers? then [ResetReply(m.recver, m.sender)] else []
  {
    HeldOkIsWellFormed(s);
    assert ResetsIn(s.replies) + [] == ResetsIn(s.replies);
    match m.op
    case Clock => ClockAnswersGets(s, m);
    case Add(_, _) =>
    case Get(_) => ResetsInSnoc(s.replies, ReplyTo(m, s.storage));
    case ResetWorkers(_) => ResetsInSnoc(s.replies, ResetReply(m.recver, m.sender));
  }

  /** Every registration is answered once, to its sender, in order; nothing else is answered
      as a registration. */
  lemma {:induction false} ResetsAreAnswered(states: seq<Ssp>, h: seq<Message>, n: nat)
    requires IsRun(states, h) && n <= |h|
    ensures ResetsIn(states[n].replies) == ResetAnswers(h[..n])
  {
    if n > 0 {
      ResetsAreAnswered(states, h, n - 1);
      RunStateOk(states, h, n - 1);
      StepAnswersResets(states[n - 1], h[n - 1]);
      ResetAnswersSnoc(h, n - 1);
    }
  }

  /* ----- Conservation of Gets ----- */

  /** A Get that is deferred although its sender is not registered. */
  predicate IsStranded(s: Ssp, m: Message) {
    IsGetFor(m, s.modelId) && !s.tracker.Registered(m.sender) && s.Defers(m.sender)
  }

  /** Those among the first `n` messages, in order. */
  ghost function Stranded(states: seq<Ssp>, h: seq<Message>, n: nat): seq<Message>
    requires |states| == |h| + 1 && n <= |h|
  {
    if n == 0 then []
    else Stranded(states, h, n - 1) + if IsStranded(states[n - 1], h[n - 1]) then [h[n - 1]] else []
  }

  /** How many of the first `n` messages in `p` are Gets of the other kind. */
  ghost function CountKept(states: seq<Ssp>, h: seq<Message>, n: nat, p: Message -> bool): nat
    requires |states| == |h| + 1 && n <= |h|
  {
    if n == 0 then 0
    else
      var s, m := states[n - 1], h[n - 1];
      CountKept(states, h, n - 1, p) + if IsGetFor(m, s.modelId) && !IsStranded(s, m) && p(m) then 1 else 0
  }

  /** A Clock puts nothing back under the negative clock. */
  lemma {:induction false} ClockStrandsNothing(s: Ssp, m: Message)
    requires Config(s) && HeldOk(s) && Allowed(s, m) && m.op.Clock? && m.modelId == s.modelId
    requires s.tracker.ChangedMinClock(m.sender) > -1
    ensures s.HoldsWellFormed()
    ensures HeldAt(s.Step(m).pending, StrandedClock(s)) == HeldAt(s.pending, StrandedClock(s))
  {
    ClockReplays(s, m);
    var d, due, k := Due(s, m), HeldAt(s.pending, s.tracker.ChangedMinClock(m.sender)), StrandedClock(s);
    forall q | q in due ensures !(d.Defers(q.sender) && d.BarrierClock(q.sender) == k) {
      DueRequest(s, m, q);
    }
    ReplayHolds(d, due, k);
    NoneRequeued(d, due, k);
    assert HeldAt(d.pending, k) + [] == HeldAt(s.pending, k);
  }

  lemma {:induction false} StepStrands(s: Ssp, m: Message)
    requires Config(s) && HeldOk(s) && Allowed(s, m)
    ensures s.HoldsWellFormed()
    ensures HeldAt(s.Step(m).pending, StrandedClock(s)) ==
            HeldAt(s.pending, StrandedClock(s)) + if IsStranded(s, m) then [m] else []
  {
    HeldOkIsWellFormed(s);
    if m.op.Clock? && m.modelId == s.modelId && s.tracker.ChangedMinClock(m.sender) > -1 {
      ClockStrandsNothing(s, m);
    } else if IsGetFor(m, s.modelId) {
      GetHolds(s, m, StrandedClock(s));
      if s.tracker.Registered(m.sender) {
        DefersIffTooFarAhead(s, m.sender);
      } else {
        UnregisteredIsDeferred(s, m.sender);
      }
    }
  }

  /** Over every run the negative clock holds exactly the Gets that were deferred although
      their sender was not registered on receipt, in order; nothing else gets there and
      nothing leaves. */
  lemma {:induction false} StrandedExactly(states: seq<Ssp>, h: seq<Message>, n: nat)
    requires IsRun(states, h) && n <= |h|
    ensures HeldAt(states[n].pending, -1 - states[0].staleness) == Stranded(states, h, n)
  {
    if n > 0 {
      StrandedExactly(states, h, n - 1);
      RunStateOk(states, h, n - 1);
      StepStrands(states[n - 1], h[n - 1]);
    }
  }

  lemma {:induction false} CountGetsSnoc(h: seq<Message>, n: nat, modelId: int, p: Message -> bool)
    requires n < |h|
    ensures CountGets(h[..n + 1], modelId, p) ==
            CountGets(h[..n], modelId, p) + if IsGetFor(h[n], modelId) && p(h[n]) then 1 else 0
  {
    assert h[..n + 1][..n] == h[..n];
  }

  lemma {:induction false} CountStrandedSnoc(states: seq<Ssp>, h: seq<Message>, n: nat, p: Message -> bool)
    requires |states| == |h| + 1 && n < |h|
    ensures Count(Stranded(states, h, n + 1), p) ==
            Count(Stranded(states, h, n), p) + if IsStranded(states[n], h[n]) && p(h[n]) then 1 else 0
  {
    var was, m := Stranded(states, h, n), h[n];
    assert (was + [m])[..|was|] == was;
    assert was + [] == was;
  }

  lemma {:induction false} GetsSplit(states: seq<Ssp>, h: seq<Message>, n: nat, p: Message -> bool)
    requires IsRun(states, h) && n <= |h|
    ensures CountGets(h[..n], states[0].modelId, p) == Count(Stranded(states, h, n), p) + CountKept(states, h, n, p)
  {
    if n > 0 {
      GetsSplit(states, h, n - 1, p);
      RunStateOk(states, h, n - 1);
      CountGetsSnoc(h, n - 1, states[0].modelId, p);
      CountStrandedSnoc(states, h, n - 1, p);
    }
  }

  lemma {:induction false} RunAccounted(states: seq<Ssp>, h: seq<Message>, n: nat, p: Message -> bool)
    requires IsRun(states, h) && n <= |h|
    ensures CountGets(h[..n], states[0].modelId, p) == CountAnswered(states[n].replies, p) + Tally(states[n].pending, p)
  {
    RunInvHolds(states, h, n);
    assert Accounted(states[n], p) == CountGets(h[..n], states[n].modelId, p);
  }

  /** GET CONSERVATION. At every point of every run, resets included, and for every class of
      requests `p`: the Gets received equal those answered plus those held, so each is
      answered once or held once, never both. Under the negative clock sit exactly the
      deferred Gets of senders unregistered on receipt. All other Gets, in particular those
      of registered workers, are answered or wait strictly above the minimum. */
  lemma {:induction false} GetConservation(states: seq<Ssp>, h: seq<Message>, n: nat, p: Message -> bool)
    requires IsRun(states, h) && n <= |h|
    ensures var s := states[n];
            && HeldOk(s)
            && CountGets(h[..n], s.modelId, p) == CountAnswered(s.replies, p) + Tally(s.pending, p)
            && HeldAt(s.pending, StrandedClock(s)) == Stranded(states, h, n)
            && CountKept(states, h, n, p) == CountAnswered(s.replies, p) + Tally(Without(s.pending, StrandedClock(s)), p)
  {
    var s := states[n];
    RunStateOk(states, h, n);
    RunAccounted(states, h, n, p);
    StrandedExactly(states, h, n);
    GetsSplit(states, h, n, p);
    TallySplit(s.pending, StrandedClock(s), p);
  }

  ghost predicate MinSet(s: Ssp) {
    0 <= s.tracker.minClock <= INT_MAX
  }

  lemma {:induction false} StepKeepsMinSet(s: Ssp, m: Message)
    requires Config(s) && HeldOk(s) && Allowed(s, m)
    ensures s.HoldsWellFormed()
    ensures MinSet(s) || m.op.ResetWorkers? ==> MinSet(s.Step(m))
  {
    StepTracker(s, m);
  }

  lemma {:induction false} MinSetAfterReset(states: seq<Ssp>, h: seq<Message>, j: nat, n: nat)
    requires IsRun(states, h) && j < n <= |h| && h[j].op.ResetWorkers?
    ensures MinSet(states[n])
    decreases n
  {
    if j < n - 1 {
      MinSetAfterReset(states, h, j, n - 1);
    }
    RunStateOk(states, h, n - 1);
    StepKeepsMinSet(states[n - 1], h[n - 1]);
  }

  /** Once anybody has been registered, the Gets that conservation counts as answered or
      waiting are exactly those of senders registered on receipt: before that, the unset
      minimum may let a Get of an unregistered sender through. */
  lemma {:induction false} KeptIsRegistered(states: seq<Ssp>, h: seq<Message>, j: nat, n: nat)
    requires IsRun(states, h) && j < n < |h| && h[j].op.ResetWorkers?
    requires IsGetFor(h[n], states[n].modelId)
    ensures !IsStranded(states[n], h[n]) <==> states[n].tracker.Registered(h[n].sender)
  {
    RunStateOk(states, h, n);
    MinSetAfterReset(states, h, j, n);
    if !states[n].tracker.Registered(h[n].sender) {
      UnregisteredIsDeferred(states[n], h[n].sender);
    }
  }

  lemma {:induction false} StrandedStays(states: seq<Ssp>, h: seq<Message>, i: nat, n: nat)
    requires |states| == |h| + 1 && i < n <= |h| && IsStranded(states[i], h[i])
    ensures h[i] in Stranded(states, h, n)
    decreases n
  {
    if i < n - 1 {
      StrandedStays(states, h, i, n - 1);
    }
  }

  /** A Get from a worker unknown at the time is held under a negative clock and stays
      there for the rest of the run, even if the worker registers later. */
  lemma {:induction false} UnknownSendersGetIsHeldForever(states: seq<Ssp>, h: seq<Message>, i: nat, n: nat)
    requires IsRun(states, h) && i < n <= |h|
    requires IsGetFor(h[i], states[i].modelId)
    requires !states[i].tracker.Registered(h[i].sender) && states[i].Defers(h[i].sender)
    ensures h[i] in HeldAt(states[n].pending, -1 - states[0].staleness)
  {
    StrandedExactly(states, h, n);
    StrandedStays(states, h, i, n);
  }

  /* ----- Requests of quiet senders ----- */

  /** A message that neither clocks nor resets `w` leaves `w`'s progress alone. */
  predicate Quiet(m: Message, modelId: int, w: Tid) {
    !Resets(m, w) && !IsClockOf(m, modelId, w)
  }

  ghost predicate AnsweredSince(s: Ssp, from: nat, q: Message) {
    exists j :: from <= j < |s.replies| && s.replies[j].GetReply? && RequestOf(s.replies[j]) == q
  }

  /** `q` waits for clock `k`, which is the one its sender's progress asks for. */
  ghost predicate Waiting(s: Ssp, q: Message, k: int) {
    q in HeldAt(s.pending, k) && s.tracker.Registered(q.sender) && s.tracker.progresses[q.sender] == k + s.staleness
  }

  /** A held request whose sender is quiet stays held under the same clock until that
      clock is due, and is answered then. */
  lemma {:induction false} QuietStep(s: Ssp, m: Message, q: Message, k: int)
    requires Config(s) && HeldOk(s) && Allowed(s, m)
    requires Waiting(s, q, k) && k > -1
    requires Quiet(m, s.modelId, q.sender)
    ensures s.HoldsWellFormed()
    ensures var s' := s.Step(m);
            AnsweredSince(s', |s.replies|, q) || Waiting(s', q, k)
  {
    HeldOkIsWellFormed(s);
    StepTracker(s, m);
    var s' := s.Step(m);
    if m.op.Clock? && m.modelId == s.modelId && s.tracker.ChangedMinClock(m.sender) > -1 {
      var c := s.tracker.ChangedMinClock(m.sender);
      var due := HeldAt(s.pending, c);
      ReplayOutcome(s, m);
      if c == k {
        AnswersAnswer(Due(s, m), due, q);
        var r := ReplyTo(q, Due(s, m).storage);
        var i :| 0 <= i < |Answers(Due(s, m), due)| && Answers(Due(s, m), due)[i] == r;
        assert s'.replies[|s.replies| + i] == r && RequestOf(r) == q;
      } else {
        DueIsOk(s, m);
        ReplayFacts(Due(s, m), due);
        assert HeldAt(Due(s, m).pending, k) == HeldAt(s.pending, k);
      }
    } else if m.op.Get? && m.modelId == s.modelId {
      GetFacts(s, m);
    }
  }

  lemma {:induction false} WaitsAboveMinimum(s: Ssp, q: Message, k: int)
    requires Config(s) && HeldOk(s) && Waiting(s, q, k) && k > -1
    ensures s.tracker.minClock < k
  {
    var e :| 0 <= e < |s.pending[k]| && s.pending[k][e] == q;
    assert WaitsRightly(s, k, s.pending[k][e]);
  }

  lemma {:induction false} AnsweredStays(s: Ssp, s': Ssp, from: nat, q: Message)
    requires s.replies <= s'.replies && AnsweredSince(s, from, q)
    ensures AnsweredSince(s', from, q)
  {
    var j :| from <= j < |s.replies| && s.replies[j].GetReply? && RequestOf(s.replies[j]) == q;
    assert s'.replies[j] == s.replies[j];
  }

  lemma {:induction false} DeferredWaits(s: Ssp, q: Message)
    requires Config(s) && HeldOk(s) && IsGetFor(q, s.modelId)
    requires s.tracker.Registered(q.sender) && s.Defers(q.sender)
    ensures var k := s.tracker.progresses[q.sender] - s.staleness; k > -1 && Waiting(s.Get(q), q, k)
  {
    DefersIffTooFarAhead(s, q.sender);
    GetFacts(s, q);
  }

  lemma {:induction false} QuietKeeps(s: Ssp, m: Message, q: Message, k: int, from: nat)
    requires Config(s) && HeldOk(s) && Allowed(s, m) && k > -1 && from <= |s.replies|
    requires Quiet(m, s.modelId, q.sender)
    requires AnsweredSince(s, from, q) || Waiting(s, q, k)
    ensures s.HoldsWellFormed() && (AnsweredSince(s.Step(m), from, q) || Waiting(s.Step(m), q, k))
  {
    StepKeeps(s, m);
    if AnsweredSince(s, from, q) {
      AnsweredStays(s, s.Step(m), from, q);
    } else {
      QuietStep(s, m, q, k);
    }
  }

  lemma {:induction false} RepliesGrow(states: seq<Ssp>, h: seq<Message>, i: nat, n: nat)
    requires IsRun(states, h) && i <= n <= |h|
    ensures states[i].replies <= states[n].replies
    decreases n
  {
    if i < n {
      RepliesGrow(states, h, i, n - 1);
      RunStateOk(states, h, n - 1);
      StepKeeps(states[n - 1], h[n - 1]);
    }
  }

  lemma {:induction false} QuietGetIsKept(states: seq<Ssp>, h: seq<Message>, i: nat, n: nat, q: Message, k: int)
    requires IsRun(states, h) && i < n <= |h| && k > -1
    requires Waiting(states[i + 1], q, k)
    requires forall e :: i < e < n ==> Quiet(h[e], states[0].modelId, q.sender)
    ensures AnsweredSince(states[n], |states[i].replies|, q) || Waiting(states[n], q, k)
    decreases n
  {
    if n > i + 1 {
      QuietGetIsKept(states, h, i, n - 1, q, k);
      RunStateOk(states, h, n - 1);
      RepliesGrow(states, h, i, n - 1);
      QuietKeeps(states[n - 1], h[n - 1], q, k, |states[i].replies|);
    }
  }

  /** A Get deferred at state `i` of a run whose sender then neither clocks nor is reset is
      answered by the time the minimum reaches its clock: at every later state it has been
      answered, or it is still held and the minimum is still below. */
  lemma {:induction false} QuietGetIsAnsweredWhenDue(states: seq<Ssp>, h: seq<Message>, i: nat, n: nat)
    requires IsRun(states, h) && i < n <= |h|
    requires IsGetFor(h[i], states[i].modelId)
    requires states[i].tracker.Registered(h[i].sender) && states[i].Defers(h[i].sender)
    requires forall e :: i < e < n ==> Quiet(h[e], states[i].modelId, h[i].sender)
    ensures var k, s := states[i].tracker.progresses[h[i].sender] - states[i].staleness, states[n];
            || AnsweredSince(s, |states[i].replies|, h[i])
            || (Waiting(s, h[i], k) && s.tracker.minClock < k)
  {
    var q, k := h[i], states[i].tracker.progresses[h[i].sender] - states[i].staleness;
    RunStateOk(states, h, i);
    DeferredWaits(states[i], q);
    QuietGetIsKept(states, h, i, n, q, k);
    RunStateOk(states, h, n);
    if Waiting(states[n], q, k) {
      WaitsAboveMinimum(states[n], q, k);
    }
  }
}
