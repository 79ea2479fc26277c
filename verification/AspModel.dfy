/** ASPModel: the asynchronous controller, and its relation to SSP. */
module AspModel {
  import opened Messages
  import opened MachineInts
  import opened ProgressTracking
  import opened PendingMessages
  import opened KeyValueStorage
  import opened SspModel
  import opened SspGuarantees

  datatype Asp = Asp(modelId: int, tracker: Tracker, storage: Store, replies: seq<Reply>) {

    function Step(m: Message): Asp
      requires WellFormed(m)
    {
      match m.op
      case ResetWorkers(tids) =>
        this.(tracker := tracker.Init(tids), replies := replies + [ResetReply(m.recver, m.sender)])
      case Clock =>
        if m.modelId != modelId then this else this.(tracker := tracker.Advance(m.sender))
      case Add(keys, vals) =>
        if m.modelId != modelId then this else this.(storage := AddPairs(storage, keys, vals))
      case Get(keys) =>
        if m.modelId != modelId then this
        else this.(storage := Touch(storage, keys), replies := replies + [ReplyTo(m, storage)])
    }
  }

  class ASPModel {
    const modelId: int
    const progressTracker: ProgressTracker
    const storage: MapStorage
    var replies: seq<Reply>

    ghost function Value(): Asp
      reads this, progressTracker, storage
    {
      Asp(modelId, progressTracker.Value(), storage.storage, replies)
    }

    constructor (modelId: int, storage: MapStorage)
      ensures this.modelId == modelId && this.storage == storage && fresh(progressTracker)
      ensures progressTracker.progresses == map[] && replies == []
    {
      this.modelId := modelId;
      this.storage := storage;
      progressTracker := new ProgressTracker();
      replies := [];
    }

    method Clock(m: Message)
      requires m.op.Clock?
      modifies progressTracker
      ensures Value() == old(Value()).Step(m)
    {
      if m.modelId != modelId {
        return;
      }
      var _ := progressTracker.AdvanceAndGetChangedMinClock(m.sender);
    }

    method Add(m: Message)
      requires m.op.Add? && WellFormed(m)
      modifies storage
      ensures Value() == old(Value()).Step(m)
    {
      if m.modelId != modelId {
        return;
      }
      storage.SubAdd(m.op.keys, m.op.vals);
    }

    method Get(m: Message)
      requires m.op.Get?
      modifies this, storage
      ensures Value() == old(Value()).Step(m)
    {
      if m.modelId != modelId {
        return;
      }
      var vals := storage.SubGet(m.op.keys);
      replies := replies + [GetReply(m.recver, m.sender, m.modelId, m.op.keys, vals)];
    }

    method ResetWorker(m: Message)
      requires m.op.ResetWorkers?
      modifies this, progressTracker
      ensures Value() == old(Value()).Step(m)
    {
      progressTracker.Init(m.op.tids);
      replies := replies + [ResetReply(m.recver, m.sender)];
    }
  }

  /* ----- What ASP guarantees ----- */

  predicate InitialAsp(a: Asp) {
    a.tracker.progresses == map[] && a.storage == map[] && a.replies == []
  }

  ghost predicate IsAspRun(aa: seq<Asp>, h: seq<Message>) {
    && |aa| == |h| + 1 && InitialAsp(aa[0])
    && forall i :: 0 <= i < |h| ==> WellFormed(h[i]) && aa[i + 1] == aa[i].Step(h[i])
  }

  /** What a message puts into the reply queue. */
  function AspAnswer(m: Message, modelId: int, storage: Store): seq<Reply> {
    if m.op.ResetWorkers? then [ResetReply(m.recver, m.sender)]
    else if IsGetFor(m, modelId) then [ReplyTo(m, storage)]
    else []
  }

  /** Over every run: storage is the sum of all Adds so far, every Get for the model is
      answered on arrival and with one reply, and so is every registration, whoever sends
      it; nothing else is answered. */
  lemma {:induction false} AspAnswersAtOnce(aa: seq<Asp>, h: seq<Message>, n: nat, k: Key)
    requires IsAspRun(aa, h) && n <= |h|
    ensures aa[n].modelId == aa[0].modelId && Lookup(aa[n].storage, k) == SumAdds(h[..n], aa[0].modelId, k)
    ensures n < |h| ==> aa[n + 1].replies == aa[n].replies + AspAnswer(h[n], aa[0].modelId, aa[n].storage)
  {
    if n > 0 {
      var m := h[n - 1];
      AspAnswersAtOnce(aa, h, n - 1, k);
      assert h[..n][..n - 1] == h[..n - 1];
      assert aa[n] == aa[n - 1].Step(m);
      if m.op.Add? && m.modelId == aa[0].modelId {
        AddPairsAdds(aa[n - 1].storage, m.op.keys, m.op.vals, k);
      } else if m.op.Get? && m.modelId == aa[0].modelId {
        TouchKeepsLookup(aa[n - 1].storage, m.op.keys, k);
      }
    } else {
      assert h[..0] == [];
    }
    if n < |h| {
      assert aa[n + 1] == aa[n].Step(h[n]);
      assert aa[n].replies + [] == aa[n].replies;
    }
  }

  /** Every value that ASP sends is the sum of all Adds processed so far. */
  lemma {:induction false} AspReadsAllAdds(aa: seq<Asp>, h: seq<Message>, n: nat, x: nat)
    requires IsAspRun(aa, h) && n < |h| && IsGetFor(h[n], aa[0].modelId) && x < |h[n].op.keys|
    ensures |aa[n + 1].replies| == |aa[n].replies| + 1
    ensures var r := aa[n + 1].replies[|aa[n].replies|];
            r.GetReply? && RequestOf(r) == h[n] && |r.vals| == |r.keys|
            && r.vals[x] == SumAdds(h[..n], aa[0].modelId, r.keys[x])
  {
    AspAnswersAtOnce(aa, h, n, h[n].op.keys[x]);
  }

  /* ----- ASP is SSP with enough slack ----- */

  /** The two controllers agree on everything both have, and SSP holds nothing back. */
  predicate SameView(s: Ssp, a: Asp) {
    && s.modelId == a.modelId && s.tracker == a.tracker && s.storage == a.storage
    && s.replies == a.replies && s.pending == map[]
  }

  /** Both controllers fed the same messages. */
  ghost predicate IsPairRun(ss: seq<Ssp>, aa: seq<Asp>, h: seq<Message>) {
    && IsRun(ss, h)
    && |aa| == |h| + 1 && SameView(ss[0], aa[0])
    && forall i :: 0 <= i < |h| ==> WellFormed(h[i]) && aa[i + 1] == aa[i].Step(h[i])
  }

  /** Every Get comes from a worker registered at the time. */
  ghost predicate GetsFromRegistered(ss: seq<Ssp>, h: seq<Message>)
    requires |ss| == |h| + 1
  {
    forall i :: 0 <= i < |h| && IsGetFor(h[i], ss[i].modelId) ==> ss[i].tracker.Registered(h[i].sender)
  }

  function AllClocks(h: seq<Message>, modelId: int): nat {
    if h == [] then 0
    else AllClocks(h[..|h| - 1], modelId) +
         if h[|h| - 1].op.Clock? && h[|h| - 1].modelId == modelId then 1 else 0
  }

  lemma {:induction false} ClocksOfIsAtMostAll(h: seq<Message>, modelId: int, w: Tid)
    ensures ClocksOf(h, modelId, w) <= AllClocks(h, modelId)
  {
    if h != [] {
      var rest, m := h[..|h| - 1], h[|h| - 1];
      ClocksOfIsAtMostAll(rest, modelId, w);
      ClocksOfExtend(rest, m, modelId, w);
      assert h == rest + [m];
    }
  }

  lemma {:induction false} AllClocksPrefix(h: seq<Message>, n: nat, modelId: int)
    requires n <= |h|
    ensures AllClocks(h[..n], modelId) <= AllClocks(h, modelId)
  {
    if n < |h| {
      AllClocksPrefix(h[..|h| - 1], n, modelId);
      assert h[..|h| - 1][..n] == h[..n];
    } else {
      assert h[..n] == h;
    }
  }

  /** One step keeps the two controllers equal exactly when SSP does not defer. */
  lemma {:induction false} SameStep(s: Ssp, a: Asp, m: Message)
    requires SameView(s, a) && WellFormed(m) && s.HoldsWellFormed()
    ensures SameView(s.Step(m), a.Step(m)) <==> (IsGetFor(m, s.modelId) ==> !s.Defers(m.sender))
  {
    if m.op.Clock? && m.modelId == s.modelId {
      var c := s.tracker.ChangedMinClock(m.sender);
      assert Without(s.pending, c) == map[];
      assert HeldAt(s.pending, c) == [];
    } else if m.op.Get? && m.modelId == s.modelId && s.Defers(m.sender) {
      assert s.BarrierClock(m.sender) in s.Step(m).pending;
    }
  }

  /** On every run whose Gets come from registered workers and whose Clocks do not
      outnumber the staleness, SSP and ASP emit the same replies in the same order and end
      with the same storage, at every point of the run. */
  lemma {:induction false} AspEqualsSspWithSlack(ss: seq<Ssp>, aa: seq<Asp>, h: seq<Message>, n: nat)
    requires IsPairRun(ss, aa, h) && n <= |h|
    requires GetsFromRegistered(ss, h)
    requires AllClocks(h, ss[0].modelId) <= ss[0].staleness
    ensures SameView(ss[n], aa[n])
  {
    if n > 0 {
      AspEqualsSspWithSlack(ss, aa, h, n - 1);
      RunInvHolds(ss, h, n - 1);
      var s, m := ss[n - 1], h[n - 1];
      assert IsStep(s, m, ss[n]);
      if IsGetFor(m, s.modelId) {
        DefersIffTooFarAhead(s, m.sender);
        ClocksOfIsAtMostAll(h[..n - 1], s.modelId, m.sender);
        AllClocksPrefix(h, n - 1, s.modelId);
      }
      SameStep(s, aa[n - 1], m);
    }
  }

  /* ----- The bound is tight ----- */

  lemma {:induction false} ExtendPairRun(ss: seq<Ssp>, aa: seq<Asp>, h: seq<Message>, m: Message)
      returns (ss': seq<Ssp>, aa': seq<Asp>, h': seq<Message>)
    requires IsPairRun(ss, aa, h) && GetsFromRegistered(ss, h)
    requires Allowed(ss[|h|], m) && ss[|h|].HoldsWellFormed()
    requires IsGetFor(m, ss[|h|].modelId) ==> ss[|h|].tracker.Registered(m.sender)
    ensures IsPairRun(ss', aa', h') && GetsFromRegistered(ss', h') && h' == h + [m] && ss'[0] == ss[0]
    ensures ss'[|h'|] == ss[|h|].Step(m) && aa'[|h'|] == aa[|h|].Step(m)
  {
    ss', aa', h' := ss + [ss[|h|].Step(m)], aa + [aa[|h|].Step(m)], h + [m];
    forall i | 0 <= i < |h'| ensures IsStep(ss'[i], h'[i], ss'[i + 1]) {
      assert i < |h| ==> IsStep(ss[i], h[i], ss[i + 1]);
    }
  }

  lemma {:induction false} AllClocksSnoc(h: seq<Message>, m: Message, modelId: int)
    ensures AllClocks(h + [m], modelId) ==
            AllClocks(h, modelId) + if m.op.Clock? && m.modelId == modelId then 1 else 0
  {
    assert (h + [m])[..|h|] == h;
  }

  /** With another worker at clock 0, an advance from there does not move the minimum. */
  lemma {:induction false} NotUniqueAhead(fast: Tid, slow: Tid, n: nat)
    requires fast != slow
    ensures var t := Tracker(map[fast := n, slow := 0], 0);
            !t.IsUniqueMin(fast) && t.ChangedMinClock(fast) == -1
  {
    var t := Tracker(map[fast := n, slow := 0], 0);
    if n == 0 {
      assert t.AtMin() == {fast, slow};
    }
  }

  lemma {:induction false} RegisterTwo(fast: Tid, slow: Tid)
    requires fast != slow
    ensures Tracker(map[], 0).Init([fast, slow]) == Tracker(map[fast := 0, slow := 0], 0)
  {
    var p, goal := Tracker(map[], 0).Init([fast, slow]).progresses, map[fast := 0, slow := 0];
    var tids := [fast, slow];
    assert tids[0] == fast && tids[1] == slow;
    assert p.Keys == goal.Keys;
    assert forall w :: w in p ==> p[w] == goal[w];
  }

  /** The state of a run in which two workers were registered and one clocked `n` times. */
  ghost predicate RanAhead(ss: seq<Ssp>, aa: seq<Asp>, h: seq<Message>, modelId: int, staleness: int, fast: Tid, slow: Tid, n: nat) {
    && IsPairRun(ss, aa, h) && GetsFromRegistered(ss, h)
    && ss[0].modelId == modelId && ss[0].staleness == staleness && AllClocks(h, modelId) == n
    && SameView(ss[|h|], aa[|h|]) && ss[|h|].modelId == modelId && ss[|h|].staleness == staleness
    && ss[|h|].tracker == Tracker(map[fast := n, slow := 0], 0)
  }

  lemma {:induction false} BothRegistered(modelId: int, staleness: int, fast: Tid, slow: Tid)
      returns (ss: seq<Ssp>, aa: seq<Asp>, h: seq<Message>)
    requires 0 <= staleness <= INT_MAX && fast != slow
    ensures RanAhead(ss, aa, h, modelId, staleness, fast, slow, 0)
  {
    var s := Ssp(modelId, staleness, Tracker(map[], 0), map[], map[], []);
    var a := Asp(modelId, Tracker(map[], 0), map[], []);
    var m := Message(fast, 0, modelId, ResetWorkers([fast, slow]));
    RegisterTwo(fast, slow);
    AllClocksSnoc([], m, modelId);
    SameStep(s, a, m);
    ss, aa, h := ExtendPairRun([s], [a], [], m);
  }

  lemma {:induction false} ClockAhead(s: Ssp, m: Message, fast: Tid, slow: Tid, n: nat)
    requires s.tracker == Tracker(map[fast := n, slow := 0], 0) && fast != slow && s.HoldsWellFormed()
    requires m == Message(fast, 0, s.modelId, Clock)
    ensures s.Step(m) == s.(tracker := Tracker(map[fast := n + 1, slow := 0], 0))
  {
    NotUniqueAhead(fast, slow, n);
    assert map[fast := n, slow := 0][fast := n + 1] == map[fast := n + 1, slow := 0];
  }

  lemma {:induction false} OneWorkerRunsAhead(modelId: int, staleness: int, fast: Tid, slow: Tid, n: nat)
      returns (ss: seq<Ssp>, aa: seq<Asp>, h: seq<Message>)
    requires 0 <= staleness <= INT_MAX && fast != slow && n <= INT_MAX
    ensures RanAhead(ss, aa, h, modelId, staleness, fast, slow, n)
  {
    if n == 0 {
      ss, aa, h := BothRegistered(modelId, staleness, fast, slow);
    } else {
      ss, aa, h := OneWorkerRunsAhead(modelId, staleness, fast, slow, n - 1);
      var s, a, m := ss[|h|], aa[|h|], Message(fast, 0, modelId, Clock);
      RunStateOk(ss, h, |h|);
      HeldOkIsWellFormed(s);
      ClockAhead(s, m, fast, slow, n - 1);
      SameStep(s, a, m);
      AllClocksSnoc(h, m, modelId);
      ss, aa, h := ExtendPairRun(ss, aa, h, m);
    }
  }

  /** For every staleness that an int clock can exceed there is a run, with Gets from
      registered workers only and one Clock more than the staleness, at whose end ASP has
      sent a reply that SSP holds back. */
  lemma {:induction false} OneClockMoreSeparates(modelId: int, staleness: int, fast: Tid, slow: Tid)
      returns (ss: seq<Ssp>, aa: seq<Asp>, h: seq<Message>)
    requires 0 <= staleness < INT_MAX && fast != slow
    ensures IsPairRun(ss, aa, h) && GetsFromRegistered(ss, h)
    ensures ss[0].modelId == modelId && ss[0].staleness == staleness && AllClocks(h, modelId) == staleness + 1
    ensures !SameView(ss[|h|], aa[|h|]) && ss[|h|].replies != aa[|h|].replies
  {
    ss, aa, h := OneWorkerRunsAhead(modelId, staleness, fast, slow, staleness + 1);
    var s, a, m := ss[|h|], aa[|h|], Message(fast, 0, modelId, Get([]));
    RunStateOk(ss, h, |h|);
    HeldOkIsWellFormed(s);
    DefersIffTooFarAhead(s, fast);
    SameStep(s, a, m);
    AllClocksSnoc(h, m, modelId);
    ss, aa, h := ExtendPairRun(ss, aa, h, m);
    assert |aa[|h|].replies| == |a.replies| + 1;
  }

  /** A run with at most `clocks` Clocks whose Gets come from registered workers. */
  ghost predicate IsShortRun(ss: seq<Ssp>, aa: seq<Asp>, h: seq<Message>, modelId: int, staleness: int, clocks: nat) {
    && IsPairRun(ss, aa, h) && GetsFromRegistered(ss, h)
    && ss[0].modelId == modelId && ss[0].staleness == staleness && AllClocks(h, modelId) <= clocks
  }

  ghost predicate AgreeUpTo(modelId: int, staleness: int, clocks: nat) {
    forall ss, aa, h :: IsShortRun(ss, aa, h, modelId, staleness, clocks) ==> SameView(ss[|h|], aa[|h|])
  }

  /** EXACT SLACK. SSP and ASP agree on all runs of at most `clocks` Clocks if and only if
      that many do not exceed the staleness. */
  lemma {:induction false} SlackIsExact(modelId: int, staleness: int, clocks: nat)
    requires 0 <= staleness < INT_MAX
    ensures AgreeUpTo(modelId, staleness, clocks) <==> clocks <= staleness
  {
    if clocks <= staleness {
      forall ss, aa, h | IsShortRun(ss, aa, h, modelId, staleness, clocks)
        ensures SameView(ss[|h|], aa[|h|])
      {
        AspEqualsSspWithSlack(ss, aa, h, |h|);
      }
    } else {
      var ss, aa, h := OneClockMoreSeparates(modelId, staleness, 0, 1);
      assert IsShortRun(ss, aa, h, modelId, staleness, clocks);
    }
  }
}
