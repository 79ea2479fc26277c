/** What the BSP controller guarantees over every run. */
module BspGuarantees {
  import opened Messages
  import opened ProgressTracking
  import opened KeyValueStorage
  import opened BspModel
  import S = SspGuarantees

  predicate Initial(s: Bsp) {
    s.tracker.progresses == map[] && s.storage == map[] && s.addBuffer == [] && s.getBuffer == [] && s.replies == []
  }

  predicate IsStep(s: Bsp, m: Message, s': Bsp) {
    WellFormed(m) && s.Valid() && s' == s.Step(m)
  }

  /** `states[i]` is the state before `h[i]`. */
  ghost predicate IsTrace(states: seq<Bsp>, h: seq<Message>) {
    && |states| == |h| + 1
    && states[0].Valid()
    && forall i :: 0 <= i < |h| ==> IsStep(states[i], h[i], states[i + 1])
  }

  /** What buffered Adds will contribute to key `k`. */
  function Buffered(adds: seq<Message>, k: Key): Val
    requires AllAdds(adds)
  {
    if adds == [] then 0
    else
      var m := adds[|adds| - 1];
      Buffered(adds[..|adds| - 1], k) + Total(m.op.keys, m.op.vals, k)
  }

  lemma {:induction false} FlushAdds(store: Store, adds: seq<Message>, k: Key)
    requires AllAdds(adds)
    ensures Lookup(Flush(store, adds), k) == Lookup(store, k) + Buffered(adds, k)
  {
    if adds != [] {
      var rest, m := adds[..|adds| - 1], adds[|adds| - 1];
      FlushAdds(store, rest, k);
      AddPairsAdds(Flush(store, rest), m.op.keys, m.op.vals, k);
    }
  }

  lemma {:induction false} DiscardKeeps(store: Store, gets: seq<Message>, k: Key)
    requires AllReads(gets)
    ensures Lookup(Discard(store, gets), k) == Lookup(store, k)
  {
    if gets != [] {
      DiscardKeeps(store, gets[..|gets| - 1], k);
      TouchKeepsLookup(Discard(store, gets[..|gets| - 1]), gets[|gets| - 1].op.keys, k);
    }
  }

  /** True when `m` ends a round. */
  predicate EndsRound(s: Bsp, m: Message) {
    m.op.Clock? && m.modelId == s.modelId && s.tracker.ChangedMinClock(m.sender) > -1
  }

  /** One step's effect on key `k`: the storage moves only at the end of a round, and then
      it takes the whole buffer; an accepted Add goes to the buffer. */
  lemma {:induction false} StepMoves(s: Bsp, m: Message, k: Key)
    requires WellFormed(m) && s.Valid()
    ensures var s' := s.Step(m);
            && s'.modelId == s.modelId
            && Lookup(s'.storage, k) == Lookup(s.storage, k) + (if EndsRound(s, m) then Buffered(s.addBuffer, k) else 0)
            && Buffered(s'.addBuffer, k) ==
                 if EndsRound(s, m) then 0
                 else Buffered(s.addBuffer, k) + if s.Accepts(m) then S.Contribution(m, s.modelId, k) else 0
  {
    match m.op
    case Clock =>
      if EndsRound(s, m) {
        FlushAdds(s.storage, s.addBuffer, k);
        DiscardKeeps(Flush(s.storage, s.addBuffer), s.getBuffer, k);
      }
    case Add(_, _) =>
      assert (s.addBuffer + [m])[..|s.addBuffer|] == s.addBuffer;
    case Get(keys) => TouchKeepsLookup(s.storage, keys, k);
    case ResetWorkers(_) =>
  }

  /* ----- Conservation ----- */

  /** The sum for `k` of the first `n` messages that were accepted Adds. */
  ghost function SumAccepted(states: seq<Bsp>, h: seq<Message>, n: nat, k: Key): Val
    requires |states| == |h| + 1 && n <= |h|
  {
    if n == 0 then 0
    else SumAccepted(states, h, n - 1, k) +
         if states[n - 1].Accepts(h[n - 1]) then S.Contribution(h[n - 1], states[n - 1].modelId, k) else 0
  }

  /** ADD CONSERVATION. In every run, resets included, storage plus buffer is exactly the
      sum of all accepted Adds. */
  lemma {:induction false} AddConservation(states: seq<Bsp>, h: seq<Message>, n: nat, k: Key)
    requires IsTrace(states, h) && Initial(states[0]) && n <= |h|
    ensures states[n].Valid()
    ensures Lookup(states[n].storage, k) + Buffered(states[n].addBuffer, k) == SumAccepted(states, h, n, k)
  {
    if n > 0 {
      AddConservation(states, h, n - 1, k);
      assert IsStep(states[n - 1], h[n - 1], states[n]);
      StepMoves(states[n - 1], h[n - 1], k);
    }
  }

  /** An Add from a registered worker is dropped, leaving no trace at all, exactly when the
      worker is ahead of the minimum. */
  lemma {:induction false} AddDroppedIffAhead(s: Bsp, m: Message)
    requires s.Valid() && s.tracker.LowerBound() && WellFormed(m)
    requires m.op.Add? && m.modelId == s.modelId && s.tracker.Registered(m.sender)
    ensures s.Step(m) == s <==> s.tracker.progresses[m.sender] > s.tracker.minClock
  {
    assert |s.addBuffer + [m]| != |s.addBuffer|;
  }

  /** The clock of a worker; one that is not registered counts as -1. */
  function ClockOf(s: Bsp, w: Tid): int {
    if w in s.tracker.progresses then s.tracker.progresses[w] else -1
  }

  /** Whoever sends it: an Add is kept in the buffer, and nothing else changes, exactly when
      it is for this model and its sender's clock is the minimum. Otherwise nothing changes. */
  lemma {:induction false} AddKeptIff(s: Bsp, m: Message)
    requires s.Valid() && WellFormed(m) && m.op.Add?
    ensures s.Step(m) ==
            if m.modelId == s.modelId && ClockOf(s, m.sender) == s.tracker.minClock then s.(addBuffer := s.addBuffer + [m])
            else s
  {
  }

  /* ----- Which Gets are answered ----- */

  /** How many of the first `n` messages were Gets in `p` whose sender was not ahead. */
  ghost function CountDirect(states: seq<Bsp>, h: seq<Message>, n: nat, p: Message -> bool): nat
    requires |states| == |h| + 1 && n <= |h|
  {
    if n == 0 then 0
    else
      var s, m := states[n - 1], h[n - 1];
      CountDirect(states, h, n - 1, p) +
      if S.IsGetFor(m, s.modelId) && ClockOf(s, m.sender) <= s.tracker.minClock && p(m) then 1 else 0
  }

  lemma {:induction false} StepAnswers(s: Bsp, m: Message, p: Message -> bool)
    requires WellFormed(m) && s.Valid()
    ensures S.CountAnswered(s.Step(m).replies, p) ==
            S.CountAnswered(s.replies, p) +
            if S.IsGetFor(m, s.modelId) && ClockOf(s, m.sender) <= s.tracker.minClock && p(m) then 1 else 0
  {
    if m.op.ResetWorkers? {
      assert (s.replies + [ResetReply(m.recver, m.sender)])[..|s.replies|] == s.replies;
    } else if S.IsGetFor(m, s.modelId) && ClockOf(s, m.sender) <= s.tracker.minClock {
      var r := ReplyTo(m, s.storage);
      assert (s.replies + [r])[..|s.replies|] == s.replies && RequestOf(r) == m;
    }
  }

  /** Exactly the Gets that find their sender not ahead are ever answered: ending a round
      reads the storage for the deferred ones but sends nothing. */
  lemma {:induction false} OnlyDirectGetsAreAnswered(states: seq<Bsp>, h: seq<Message>, n: nat, p: Message -> bool)
    requires IsTrace(states, h) && Initial(states[0]) && n <= |h|
    ensures S.CountAnswered(states[n].replies, p) == CountDirect(states, h, n, p)
  {
    if n > 0 {
      OnlyDirectGetsAreAnswered(states, h, n - 1, p);
      assert IsStep(states[n - 1], h[n - 1], states[n]);
      StepAnswers(states[n - 1], h[n - 1], p);
    }
  }

  /* ----- Rounds ----- */

  /** The Adds accepted by messages `a..n` in rounds below `r`. */
  ghost function AcceptedBefore(states: seq<Bsp>, h: seq<Message>, a: nat, n: nat, r: int, k: Key): Val
    requires |states| == |h| + 1 && a <= n <= |h|
    decreases n
  {
    if n == a then 0
    else AcceptedBefore(states, h, a, n - 1, r, k) +
         if states[n - 1].Accepts(h[n - 1]) && states[n - 1].tracker.minClock < r
         then S.Contribution(h[n - 1], states[n - 1].modelId, k) else 0
  }

  /** No worker is registered by messages `a..n`: one registration epoch. */
  ghost predicate SameEpoch(h: seq<Message>, a: nat, n: nat)
    requires a <= n <= |h|
  {
    forall i :: a <= i < n ==> !h[i].op.ResetWorkers?
  }

  lemma {:induction false} RoundsOnlyRise(states: seq<Bsp>, h: seq<Message>, a: nat, i: nat, n: nat)
    requires IsTrace(states, h) && a <= i <= n <= |h| && SameEpoch(h, a, n)
    requires states[a].tracker.LowerBound()
    ensures states[n].tracker.LowerBound()
    ensures states[i].tracker.minClock <= states[n].tracker.minClock
    ensures states[n].tracker.progresses.Keys == states[a].tracker.progresses.Keys
    decreases n
  {
    if a < n {
      RoundsOnlyRise(states, h, a, if i < n then i else n - 1, n - 1);
      assert IsStep(states[n - 1], h[n - 1], states[n]);
      AdvanceKeepsLowerBound(states[n - 1].tracker, h[n - 1].sender);
    }
  }

  /** Raising the bound past the current round includes every Add accepted so far. */
  lemma {:induction false} NoAddFromTheFuture(states: seq<Bsp>, h: seq<Message>, a: nat, i: nat, n: nat, r: int, k: Key)
    requires IsTrace(states, h) && a <= i <= n <= |h| && SameEpoch(h, a, n)
    requires states[a].tracker.LowerBound() && states[n].tracker.minClock < r
    ensures AcceptedBefore(states, h, a, i, r, k) == AcceptedBefore(states, h, a, i, states[n].tracker.minClock + 1, k)
    decreases i
  {
    if a < i {
      NoAddFromTheFuture(states, h, a, i - 1, n, r, k);
      RoundsOnlyRise(states, h, a, i - 1, n);
    }
  }

  /** The minimum and, for key `k`, the storage and the buffer before and after `m`. */
  ghost predicate Moves(s: Bsp, m: Message, s': Bsp, k: Key)
    requires s.Valid() && s'.Valid()
  {
    && s'.tracker.minClock == s.tracker.minClock + (if EndsRound(s, m) then 1 else 0)
    && Lookup(s'.storage, k) == Lookup(s.storage, k) + (if EndsRound(s, m) then Buffered(s.addBuffer, k) else 0)
    && Buffered(s'.addBuffer, k) ==
         if EndsRound(s, m) then 0
         else Buffered(s.addBuffer, k) + if s.Accepts(m) then S.Contribution(m, s.modelId, k) else 0
  }

  /** What message `i` of a trace does to key `k` and to the round, without a reset. */
  lemma {:induction false} TraceMoves(states: seq<Bsp>, h: seq<Message>, i: nat, k: Key)
    requires IsTrace(states, h) && i < |h| && !h[i].op.ResetWorkers?
    requires states[i].tracker.LowerBound()
    ensures states[i].Valid() && states[i + 1].Valid()
    ensures Moves(states[i], h[i], states[i + 1], k)
  {
    assert IsStep(states[i], h[i], states[i + 1]);
    StepMoves(states[i], h[i], k);
    AdvanceKeepsLowerBound(states[i].tracker, h[i].sender);
  }

  ghost predicate Snapshot(states: seq<Bsp>, h: seq<Message>, a: nat, n: nat, k: Key)
    requires |states| == |h| + 1 && a <= n <= |h| && states[a].Valid() && states[n].Valid()
  {
    var r := states[n].tracker.minClock;
    var left := Buffered(states[a].addBuffer, k);
    var ended := r > states[a].tracker.minClock;
    && Lookup(states[n].storage, k) ==
         Lookup(states[a].storage, k) + (if ended then left else 0) + AcceptedBefore(states, h, a, n, r, k)
    && Buffered(states[n].addBuffer, k) ==
         (if ended then 0 else left) +
         AcceptedBefore(states, h, a, n, r + 1, k) - AcceptedBefore(states, h, a, n, r, k)
  }

  lemma {:induction false} SnapshotStart(states: seq<Bsp>, h: seq<Message>, a: nat, k: Key)
    requires |states| == |h| + 1 && a <= |h| && states[a].Valid()
    ensures Snapshot(states, h, a, a, k)
  {
  }

  lemma {:induction false} SnapshotStep(states: seq<Bsp>, h: seq<Message>, a: nat, n: nat, k: Key)
    requires |states| == |h| + 1 && a < n <= |h|
    requires states[a].Valid() && states[n - 1].Valid() && states[n].Valid()
    requires Snapshot(states, h, a, n - 1, k)
    requires states[a].tracker.minClock <= states[n - 1].tracker.minClock
    requires Moves(states[n - 1], h[n - 1], states[n], k)
    requires var r := states[n - 1].tracker.minClock;
             AcceptedBefore(states, h, a, n - 1, r + 2, k) == AcceptedBefore(states, h, a, n - 1, r + 1, k)
    ensures Snapshot(states, h, a, n, k)
  {
  }

  lemma {:induction false} SnapshotNext(states: seq<Bsp>, h: seq<Message>, a: nat, n: nat, k: Key)
    requires IsTrace(states, h) && a < n <= |h| && SameEpoch(h, a, n)
    requires states[a].Valid() && states[a].tracker.LowerBound()
    requires states[n - 1].Valid() && Snapshot(states, h, a, n - 1, k)
    ensures states[n].Valid() && Snapshot(states, h, a, n, k)
  {
    var r := states[n - 1].tracker.minClock;
    RoundsOnlyRise(states, h, a, a, n - 1);
    TraceMoves(states, h, n - 1, k);
    NoAddFromTheFuture(states, h, a, n - 1, n - 1, r + 2, k);
    SnapshotStep(states, h, a, n, k);
  }

  /** ROUND SNAPSHOT. Within one registration epoch that starts at message `a`, the storage
      in round r is the storage at the start, plus the buffer left over from before once
      its round has ended, plus exactly the Adds accepted in rounds before r. */
  lemma {:induction false} RoundSnapshot(states: seq<Bsp>, h: seq<Message>, a: nat, n: nat, k: Key)
    requires IsTrace(states, h) && a <= n <= |h| && SameEpoch(h, a, n)
    requires states[a].Valid() && states[a].tracker.LowerBound()
    ensures states[n].Valid() && Snapshot(states, h, a, n, k)
    decreases n
  {
    if a == n {
      SnapshotStart(states, h, a, k);
    } else {
      RoundSnapshot(states, h, a, n - 1, k);
      SnapshotNext(states, h, a, n, k);
    }
  }

  lemma {:induction false} TraceIsValid(states: seq<Bsp>, h: seq<Message>, n: nat)
    requires IsTrace(states, h) && n <= |h|
    ensures states[n].Valid()
  {
    if n > 0 {
      TraceIsValid(states, h, n - 1);
      assert IsStep(states[n - 1], h[n - 1], states[n]);
    }
  }

  lemma {:induction false} TraceLowerBound(states: seq<Bsp>, h: seq<Message>, n: nat)
    requires IsTrace(states, h) && Initial(states[0]) && n <= |h|
    ensures states[n].tracker.LowerBound()
  {
    if n > 0 {
      var s, m := states[n - 1], h[n - 1];
      TraceLowerBound(states, h, n - 1);
      assert IsStep(s, m, states[n]);
      AdvanceKeepsLowerBound(s.tracker, m.sender);
      if m.op.ResetWorkers? {
        InitKeepsLowerBound(s.tracker, m.op.tids);
      }
    }
  }

  lemma {:induction false} EarlierRoundsAreEmpty(states: seq<Bsp>, h: seq<Message>, a: nat, n: nat, k: Key)
    requires IsTrace(states, h) && a <= n <= |h| && SameEpoch(h, a, n)
    requires states[a].tracker.LowerBound()
    ensures AcceptedBefore(states, h, a, n, states[a].tracker.minClock, k) == 0
    decreases n
  {
    if a < n {
      EarlierRoundsAreEmpty(states, h, a, n - 1, k);
      RoundsOnlyRise(states, h, a, a, n - 1);
    }
  }

  /** Within a round of an epoch the storage does not change, as far as reads can tell. */
  lemma {:induction false} SameRoundSameStorage(states: seq<Bsp>, h: seq<Message>, a: nat, n: nat, k: Key)
    requires IsTrace(states, h) && a <= n <= |h| && SameEpoch(h, a, n)
    requires states[a].tracker.LowerBound()
    requires states[a].tracker.minClock == states[n].tracker.minClock
    ensures Lookup(states[a].storage, k) == Lookup(states[n].storage, k)
  {
    TraceIsValid(states, h, a);
    RoundSnapshot(states, h, a, n, k);
    EarlierRoundsAreEmpty(states, h, a, n, k);
  }

  /** Reply `j` is a Get reply that handling message `n` puts into the reply queue. */
  predicate Emits(states: seq<Bsp>, h: seq<Message>, n: nat, j: nat)
    requires |states| == |h| + 1 && n < |h|
  {
    |states[n].replies| <= j < |states[n + 1].replies| && states[n + 1].replies[j].GetReply?
  }

  lemma {:induction false} EmittedReadsStorage(states: seq<Bsp>, h: seq<Message>, n: nat, j: nat)
    requires IsTrace(states, h) && n < |h| && Emits(states, h, n, j)
    ensures var r := states[n + 1].replies[j];
            |r.vals| == |r.keys| && forall x :: 0 <= x < |r.keys| ==> r.vals[x] == Lookup(states[n].storage, r.keys[x])
  {
    assert IsStep(states[n], h[n], states[n + 1]);
  }

  /** What a message does to the reply queue: a registration and a Get whose sender is not
      ahead put one reply there, nothing else puts any. */
  lemma {:induction false} StepReplies(s: Bsp, m: Message)
    requires WellFormed(m) && s.Valid()
    ensures s.Step(m).replies == s.replies +
            (if m.op.ResetWorkers? then [ResetReply(m.recver, m.sender)]
             else if S.IsGetFor(m, s.modelId) && ClockOf(s, m.sender) <= s.tracker.minClock then [ReplyTo(m, s.storage)]
             else [])
  {
    assert s.replies + [] == s.replies;
  }

  /** ANSWERED IFF NOT AHEAD. In every run: a registered worker's Get is answered when it
      arrives, with one reply that carries its keys, if the worker is at the minimum; if the
      worker is ahead, nothing is sent. */
  lemma {:induction false} GetAnsweredIffAtMinimum(states: seq<Bsp>, h: seq<Message>, n: nat)
    requires IsTrace(states, h) && Initial(states[0]) && n < |h|
    requires S.IsGetFor(h[n], states[n].modelId) && h[n].sender in states[n].tracker.progresses
    ensures states[n].tracker.progresses[h[n].sender] > states[n].tracker.minClock ==>
              states[n + 1].replies == states[n].replies
    ensures states[n].tracker.progresses[h[n].sender] <= states[n].tracker.minClock ==>
              && states[n].tracker.progresses[h[n].sender] == states[n].tracker.minClock
              && |states[n + 1].replies| == |states[n].replies| + 1 && states[n].replies <= states[n + 1].replies
              && Emits(states, h, n, |states[n].replies|) && RequestOf(states[n + 1].replies[|states[n].replies|]) == h[n]
  {
    assert IsStep(states[n], h[n], states[n + 1]);
    StepReplies(states[n], h[n]);
    TraceLowerBound(states, h, n);
  }

  lemma {:induction false} EmittedAtMinimum(states: seq<Bsp>, h: seq<Message>, n: nat, j: nat)
    requires IsTrace(states, h) && Initial(states[0]) && n < |h| && Emits(states, h, n, j)
    ensures var r, t := states[n + 1].replies[j], states[n].tracker;
            && (r.recver in t.progresses ==> t.progresses[r.recver] == t.minClock)
            && h[n] == RequestOf(r)
  {
    assert IsStep(states[n], h[n], states[n + 1]);
    StepReplies(states[n], h[n]);
    TraceLowerBound(states, h, n);
  }

  /** READS ARE ROUND-EXACT. In every run, a registered worker that is answered is at the
      minimum, and within one registration epoch, which starts at message `a`, every value
      it reads is the storage at the start, plus the buffer left over from before if its
      round has ended, plus exactly the Adds accepted in rounds below its own clock. */
  lemma {:induction false} ReadsAreRoundExact(states: seq<Bsp>, h: seq<Message>, a: nat, n: nat, j: nat, x: nat)
    requires IsTrace(states, h) && Initial(states[0]) && a <= n < |h| && SameEpoch(h, a, n)
    requires Emits(states, h, n, j) && states[n + 1].replies[j].recver in states[n].tracker.progresses
    requires x < |states[n + 1].replies[j].keys|
    ensures states[a].Valid()
    ensures var r := states[n + 1].replies[j];
            var c := states[n].tracker.progresses[r.recver];
            && c == states[n].tracker.minClock && |r.vals| == |r.keys|
            && r.vals[x] == Lookup(states[a].storage, r.keys[x])
                          + (if c > states[a].tracker.minClock then Buffered(states[a].addBuffer, r.keys[x]) else 0)
                          + AcceptedBefore(states, h, a, n, c, r.keys[x])
  {
    TraceLowerBound(states, h, a);
    TraceIsValid(states, h, a);
    EmittedAtMinimum(states, h, n, j);
    EmittedReadsStorage(states, h, n, j);
    RoundSnapshot(states, h, a, n, states[n + 1].replies[j].keys[x]);
  }

  /** The Gets since the last end of a round whose sender was ahead on arrival. */
  ghost function HeldGets(states: seq<Bsp>, h: seq<Message>, n: nat): seq<Message>
    requires |states| == |h| + 1 && n <= |h|
  {
    if n == 0 then []
    else
      var s, m := states[n - 1], h[n - 1];
      if EndsRound(s, m) then []
      else HeldGets(states, h, n - 1) +
           if S.IsGetFor(m, s.modelId) && ClockOf(s, m.sender) > s.tracker.minClock then [m] else []
  }

  /** Exactly those are held, in order of arrival, until the round ends. */
  lemma {:induction false} HeldExactly(states: seq<Bsp>, h: seq<Message>, n: nat)
    requires IsTrace(states, h) && Initial(states[0]) && n <= |h|
    ensures states[n].getBuffer == HeldGets(states, h, n)
  {
    if n > 0 {
      HeldExactly(states, h, n - 1);
      assert IsStep(states[n - 1], h[n - 1], states[n]);
      assert states[n - 1].getBuffer + [] == states[n - 1].getBuffer;
    }
  }

  /** Every registration is answered once, to its sender, in order; nothing else is answered
      as a registration. */
  lemma {:induction false} ResetsAreAnswered(states: seq<Bsp>, h: seq<Message>, n: nat)
    requires IsTrace(states, h) && Initial(states[0]) && n <= |h|
    ensures ResetsIn(states[n].replies) == ResetAnswers(h[..n])
  {
    if n > 0 {
      var s, m := states[n - 1], h[n - 1];
      ResetsAreAnswered(states, h, n - 1);
      assert IsStep(s, m, states[n]);
      StepReplies(s, m);
      ResetAnswersSnoc(h, n - 1);
      ResetsInSnoc(s.replies, ResetReply(m.recver, m.sender));
      if m.op.Get? {
        ResetsInSnoc(s.replies, ReplyTo(m, s.storage));
      }
      assert s.replies + [] == s.replies;
    }
  }

  /** SAME-ROUND READS AGREE. In every run, two Get replies emitted in the same round of one
      registration epoch carry the same value for every key they share, whatever was added
      in between and whoever asked. */
  lemma {:induction false} SameRoundReadsAgree(states: seq<Bsp>, h: seq<Message>, a: nat, b: nat, i: nat, j: nat, x: nat, y: nat)
    requires IsTrace(states, h) && Initial(states[0]) && a <= b < |h| && SameEpoch(h, a, b)
    requires states[a].tracker.minClock == states[b].tracker.minClock
    requires Emits(states, h, a, i) && Emits(states, h, b, j)
    requires var r, r' := states[a + 1].replies[i], states[b + 1].replies[j];
             x < |r.keys| && y < |r'.keys| && r.keys[x] == r'.keys[y]
    ensures var r, r' := states[a + 1].replies[i], states[b + 1].replies[j];
            x < |r.vals| && y < |r'.vals| && r.vals[x] == r'.vals[y]
  {
    TraceLowerBound(states, h, a);
    EmittedReadsStorage(states, h, a, i);
    EmittedReadsStorage(states, h, b, j);
    SameRoundSameStorage(states, h, a, b, states[a + 1].replies[i].keys[x]);
  }
}
