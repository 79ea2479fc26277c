/** BSP is confluent: the order in which worker streams interleave does not matter. */
module BspConfluence {
  import opened Messages
  import opened ProgressTracking
  import opened KeyValueStorage
  import opened BspModel
  import opened BspGuarantees
  import S = SspGuarantees

  /** All of `ws` registered, nothing else done. */
  predicate Start(s: Bsp, ws: seq<Tid>) {
    && s.tracker == Tracker(map w | w in ws :: 0, 0)
    && s.storage == map[] && s.addBuffer == [] && s.getBuffer == []
  }

  predicate Distinct(ws: seq<Tid>) {
    forall i, j :: 0 <= i < j < |ws| ==> ws[i] != ws[j]
  }

  function InitAll(t: Tracker, batches: seq<seq<Tid>>): Tracker {
    if batches == [] then t
    else InitAll(t, batches[..|batches| - 1]).Init(batches[|batches| - 1])
  }

  lemma {:induction false} InitAllFacts(t: Tracker, batches: seq<seq<Tid>>)
    requires t.progresses == map[]
    ensures var p := InitAll(t, batches).progresses;
            forall w :: (w in p <==> exists i :: 0 <= i < |batches| && w in batches[i]) && (w in p ==> p[w] == 0)
    ensures batches != [] ==> InitAll(t, batches).minClock == 0
  {
    if batches != [] {
      var n := |batches| - 1;
      InitAllFacts(t, batches[..n]);
      var p := InitAll(t, batches).progresses;
      forall w ensures w in p <==> exists i :: 0 <= i < |batches| && w in batches[i] {
        if w in p && w !in batches[n] {
          var i :| 0 <= i < n && w in batches[..n][i];
          assert w in batches[i];
        }
        if i :| 0 <= i < |batches| && w in batches[i] {
          if i < n {
            assert w in batches[..n][i];
          } else {
            var e :| 0 <= e < |batches[n]| && batches[n][e] == w;
          }
        }
      }
    }
  }

  /** Registering workers in any number of batches, in any order, from a new controller
      reaches `Start` for exactly the workers named. */
  lemma {:induction false} RegistrationReachesStart(t: Tracker, batches: seq<seq<Tid>>, ws: seq<Tid>)
    requires t.progresses == map[] && batches != []
    requires forall w :: w in ws <==> exists i :: 0 <= i < |batches| && w in batches[i]
    ensures InitAll(t, batches) == Tracker(map w | w in ws :: 0, 0)
  {
    InitAllFacts(t, batches);
    var p, goal := InitAll(t, batches).progresses, map w | w in ws :: 0;
    assert forall w :: w in p <==> w in goal;
    assert p.Keys == goal.Keys;
    assert forall w :: w in p ==> p[w] == goal[w];
    assert p == goal;
  }

  /** Every Add to the model found its sender in the current round. */
  ghost predicate NoAddDropped(states: seq<Bsp>, h: seq<Message>)
    requires |states| == |h| + 1
  {
    forall i :: 0 <= i < |h| && h[i].op.Add? && h[i].modelId == states[i].modelId ==> states[i].Accepts(h[i])
  }

  /** A run of the registered workers `ws` in which no Add is dropped. */
  ghost predicate IsEpochRun(states: seq<Bsp>, h: seq<Message>, ws: seq<Tid>) {
    && IsTrace(states, h) && Start(states[0], ws) && Distinct(ws)
    && SameEpoch(h, 0, |h|) && NoAddDropped(states, h)
  }

  /** In one worker's stream: the Adds to `k` before the worker's r-th Clock. */
  function Early(stream: seq<Message>, modelId: int, w: Tid, r: int, k: Key): Val {
    if stream == [] then 0
    else
      var rest := stream[..|stream| - 1];
      Early(rest, modelId, w, r, k) +
      if S.CountClocks(rest, modelId, w) < r then S.Contribution(stream[|stream| - 1], modelId, k) else 0
  }

  /** The same, summed over the workers. */
  function EarlySum(ws: seq<Tid>, streams: map<Tid, seq<Message>>, modelId: int, r: int, k: Key): Val
    requires forall w :: w in ws ==> w in streams
  {
    if ws == [] then 0
    else
      var w := ws[|ws| - 1];
      EarlySum(ws[..|ws| - 1], streams, modelId, r, k) + Early(streams[w], modelId, w, r, k)
  }

  lemma {:induction false} EarlyPrefix(a: seq<Message>, b: seq<Message>, modelId: int, w: Tid, r: int, k: Key)
    requires a <= b && S.CountClocks(a, modelId, w) >= r
    ensures Early(a, modelId, w, r, k) == Early(b, modelId, w, r, k)
  {
    if |a| < |b| {
      var rest := b[..|b| - 1];
      EarlyPrefix(a, rest, modelId, w, r, k);
      S.CountClocksPrefix(a, rest, modelId, w);
    } else {
      assert a == b;
    }
  }

  function Streams(ws: seq<Tid>, h: seq<Message>): map<Tid, seq<Message>> {
    map w | w in ws :: S.SentBy(h, w)
  }

  /** One more message changes the sum by what its sender's stream gains. */
  lemma {:induction false} EarlySumExtend(ws: seq<Tid>, all: seq<Tid>, h: seq<Message>, m: Message, modelId: int, r: int, k: Key)
    requires Distinct(ws) && forall w :: w in ws ==> w in all
    ensures EarlySum(ws, Streams(all, h + [m]), modelId, r, k) ==
            EarlySum(ws, Streams(all, h), modelId, r, k) +
            if m.sender in ws && S.CountClocks(h, modelId, m.sender) < r then S.Contribution(m, modelId, k) else 0
  {
    if ws != [] {
      var rest, w := ws[..|ws| - 1], ws[|ws| - 1];
      assert w in ws && ws == rest + [w];
      EarlySumExtend(rest, all, h, m, modelId, r, k);
      assert (h + [m])[..|h|] == h;
      S.CountClocksSent(h, modelId, w);
      var sent := S.SentBy(h, w);
      assert (sent + [m])[..|sent|] == sent;
      assert sent + [] == sent;
      assert w !in rest;
    }
  }

  lemma {:induction false} EarlySumOfNothing(ws: seq<Tid>, all: seq<Tid>, modelId: int, r: int, k: Key)
    requires forall w :: w in ws ==> w in all
    ensures EarlySum(ws, Streams(all, []), modelId, r, k) == 0
  {
    if ws != [] {
      assert ws[|ws| - 1] in ws;
      EarlySumOfNothing(ws[..|ws| - 1], all, modelId, r, k);
    }
  }

  /** In an epoch run every progress is the number of Clocks its worker has sent. */
  lemma {:induction false} ProgressIsClocks(states: seq<Bsp>, h: seq<Message>, ws: seq<Tid>, n: nat)
    requires IsEpochRun(states, h, ws) && n <= |h|
    ensures states[n].modelId == states[0].modelId
    ensures forall w :: w in states[n].tracker.progresses <==> w in ws
    ensures forall w :: w in ws ==> states[n].tracker.progresses[w] == S.CountClocks(h[..n], states[0].modelId, w)
  {
    if n > 0 {
      ProgressIsClocks(states, h, ws, n - 1);
      assert IsStep(states[n - 1], h[n - 1], states[n]);
      assert h[..n][..n - 1] == h[..n - 1];
    }
  }

  /** Because no Add is dropped, the Adds accepted in rounds before r are the Adds that
      each worker sent before its r-th Clock. */
  lemma {:induction false} AcceptedAreEarly(states: seq<Bsp>, h: seq<Message>, ws: seq<Tid>, n: nat, r: int, k: Key)
    requires IsEpochRun(states, h, ws) && n <= |h|
    ensures AcceptedBefore(states, h, 0, n, r, k) == EarlySum(ws, Streams(ws, h[..n]), states[0].modelId, r, k)
  {
    if n == 0 {
      assert h[..0] == [];
      EarlySumOfNothing(ws, ws, states[0].modelId, r, k);
    } else {
      var s, m := states[n - 1], h[n - 1];
      AcceptedAreEarly(states, h, ws, n - 1, r, k);
      ProgressIsClocks(states, h, ws, n - 1);
      assert IsStep(s, m, states[n]);
      EarlySumExtend(ws, ws, h[..n - 1], m, s.modelId, r, k);
      assert h[..n] == h[..n - 1] + [m];
      RoundsOnlyRise(states, h, 0, 0, n - 1);
      if m.op.Add? && m.modelId == s.modelId {
        assert s.Accepts(m);
        assert s.tracker.minClock >= 0;
      }
    }
  }

  lemma {:induction false} EarlySumOfLonger(ws: seq<Tid>, a: map<Tid, seq<Message>>, b: map<Tid, seq<Message>>,
                                            modelId: int, r: int, k: Key)
    requires forall w :: w in ws ==> w in a && w in b && a[w] <= b[w] && S.CountClocks(a[w], modelId, w) >= r
    ensures EarlySum(ws, a, modelId, r, k) == EarlySum(ws, b, modelId, r, k)
  {
    if ws != [] {
      var w := ws[|ws| - 1];
      assert w in ws;
      EarlySumOfLonger(ws[..|ws| - 1], a, b, modelId, r, k);
      EarlyPrefix(a[w], b[w], modelId, w, r, k);
    }
  }

  /** The storage when the minimum is r is, for every key, the sum of the Adds that each
      worker's stream holds before its r-th Clock: a function of the streams alone. */
  lemma {:induction false} StorageIsStreams(states: seq<Bsp>, h: seq<Message>, ws: seq<Tid>, n: nat,
                                            streams: map<Tid, seq<Message>>, k: Key)
    requires IsEpochRun(states, h, ws) && n <= |h|
    requires forall w :: w in ws ==> w in streams && S.SentBy(h[..n], w) <= streams[w]
    ensures Lookup(states[n].storage, k) ==
            EarlySum(ws, streams, states[0].modelId, states[n].tracker.minClock, k)
  {
    var modelId, r := states[0].modelId, states[n].tracker.minClock;
    RoundSnapshot(states, h, 0, n, k);
    AcceptedAreEarly(states, h, ws, n, r, k);
    ProgressIsClocks(states, h, ws, n);
    RoundsOnlyRise(states, h, 0, 0, n);
    forall w | w in ws ensures S.CountClocks(S.SentBy(h[..n], w), modelId, w) >= r {
      S.CountClocksSent(h[..n], modelId, w);
    }
    EarlySumOfLonger(ws, Streams(ws, h[..n]), streams, modelId, r, k);
  }

  /** CONFLUENCE. Two runs of the same workers that interleave the same streams in any two
      ways, and drop no Add, agree on every key whenever their minimum clocks are equal,
      however far each has otherwise progressed. */
  lemma {:induction false} Confluence(statesA: seq<Bsp>, hA: seq<Message>, nA: nat, statesB: seq<Bsp>, hB: seq<Message>, nB: nat,
                                      ws: seq<Tid>, streams: map<Tid, seq<Message>>, k: Key)
    requires IsEpochRun(statesA, hA, ws) && nA <= |hA| && IsEpochRun(statesB, hB, ws) && nB <= |hB|
    requires statesA[0].modelId == statesB[0].modelId
    requires forall w :: w in ws ==>
               w in streams && S.SentBy(hA[..nA], w) <= streams[w] && S.SentBy(hB[..nB], w) <= streams[w]
    requires statesA[nA].tracker.minClock == statesB[nB].tracker.minClock
    ensures Lookup(statesA[nA].storage, k) == Lookup(statesB[nB].storage, k)
  {
    StorageIsStreams(statesA, hA, ws, nA, streams, k);
    StorageIsStreams(statesB, hB, ws, nB, streams, k);
  }
}
