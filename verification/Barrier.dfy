/** The all-to-all barrier of `Mailbox`, for any number of nodes and any delivery order.

    Barrier messages carry no round number, so a channel is the number of messages sent
    less the number delivered. `Barrier` sends to every node in one step; delivery is
    arbitrarily late, so this has every interleaving of the sending loop. Taking the lock
    and testing the wait predicate is one step, as is the receiver's locked section. */
module Barrier {

  datatype Phase = Outside | Checking | Sleeping

  /** `entered` and `left` count this node's calls and returns, `got[i]` the messages
      delivered from node i, `fired` the notifications issued; `count` is the counter the
      code keeps. Only `count` and `phase` influence a step. */
  datatype Node = Node(entered: nat, left: nat, count: nat, phase: Phase, got: seq<nat>, fired: nat)

  type Nodes = seq<Node>

  datatype Event = Enter(j: nat) | Check(j: nat) | Arrive(i: nat, j: nat) | SpuriousWake(j: nat)

  predicate Enabled(ns: Nodes, e: Event) {
    && e.j < |ns|
    && match e
       case Enter(j) => ns[j].phase.Outside?
       case Check(j) => ns[j].phase.Checking?
       case Arrive(i, j) => i < |ns| && |ns[j].got| == |ns| && ns[j].got[i] < ns[i].entered
       case SpuriousWake(j) => ns[j].phase.Sleeping?
  }

  function AfterNode(n: Node, size: nat, e: Event): Node
    requires e.Arrive? ==> e.i < |n.got|
  {
    match e
    case Enter(_) => n.(entered := n.entered + 1, phase := Checking)
    case Check(_) =>
      if n.count >= size then n.(count := n.count - size, left := n.left + 1, phase := Outside)
      else n.(phase := Sleeping)
    case Arrive(i, _) =>
      var n' := n.(count := n.count + 1, got := n.got[i := n.got[i] + 1]);
      if n.count + 1 == size then
        n'.(fired := n.fired + 1, phase := if n.phase.Sleeping? then Checking else n.phase)
      else n'
    case SpuriousWake(_) => n.(phase := Checking)
  }

  function After(ns: Nodes, e: Event): Nodes
    requires Enabled(ns, e)
  {
    ns[e.j := AfterNode(ns[e.j], |ns|, e)]
  }

  predicate Start(ns: Nodes) {
    forall j :: 0 <= j < |ns| ==> ns[j] == Node(0, 0, 0, Outside, seq(|ns|, _ => 0), 0)
  }

  ghost predicate IsRun(states: seq<Nodes>, events: seq<Event>) {
    && |states| == |events| + 1
    && Start(states[0])
    && forall t :: 0 <= t < |events| ==> Enabled(states[t], events[t]) && states[t + 1] == After(states[t], events[t])
  }

  /* ----- Sums ----- */

  function Sum(s: seq<nat>): nat {
    if s == [] then 0 else Sum(s[..|s| - 1]) + s[|s| - 1]
  }

  lemma {:induction false} SumBump(s: seq<nat>, i: nat)
    requires i < |s|
    ensures Sum(s[i := s[i] + 1]) == Sum(s) + 1
  {
    var n := |s| - 1;
    var s' := s[i := s[i] + 1];
    if i == n {
      assert s'[..n] == s[..n];
    } else {
      SumBump(s[..n], i);
      assert s'[..n] == s[..n][i := s[..n][i] + 1];
    }
  }

  lemma {:induction false} SumAtMostAll(s: seq<nat>, c: nat)
    requires forall x :: 0 <= x < |s| ==> s[x] <= c
    ensures Sum(s) <= |s| * c
  {
    if s != [] {
      SumAtMostAll(s[..|s| - 1], c);
      assert |s| * c == (|s| - 1) * c + c;
    }
  }

  /** `c` bounds every entry, and entry `i` stays `slack` below it. */
  lemma {:induction false} SumAtMost(s: seq<nat>, c: nat, i: nat, slack: nat)
    requires (forall x :: 0 <= x < |s| ==> s[x] <= c) && i < |s| && s[i] + slack <= c
    ensures Sum(s) + slack <= |s| * c
  {
    var n := |s| - 1;
    assert |s| * c == n * c + c;
    if i < n {
      SumAtMost(s[..n], c, i, slack);
    } else {
      SumAtMostAll(s[..n], c);
    }
  }

  lemma {:induction false} SumOfZeros(n: nat)
    ensures Sum(seq(n, _ => 0)) == 0
  {
    if n > 0 {
      SumOfZeros(n - 1);
      assert seq(n, _ => 0)[..n - 1] == seq(n - 1, _ => 0);
    }
  }

  /** If every entry is at least `c` then so is the average. */
  lemma {:induction false} SumBelowHasSmall(s: seq<nat>, c: nat) returns (i: nat)
    requires Sum(s) < |s| * c
    ensures i < |s| && s[i] < c
  {
    i := |s| - 1;
    assert |s| * c == i * c + c;
    if s[i] >= c {
      i := SumBelowHasSmall(s[..i], c);
    }
  }

  /* ----- The invariant ----- */

  ghost predicate NodeOk(ns: Nodes, j: nat)
    requires j < |ns|
  {
    var n, size := ns[j], |ns|;
    && |n.got| == size
    && (forall i :: 0 <= i < size ==> n.got[i] <= ns[i].entered)
    && n.count + size * n.left == Sum(n.got)
    && n.entered == n.left + (if n.phase.Outside? then 0 else 1)
    && (n.phase.Sleeping? ==> n.count < size)
    && n.fired == n.left + (if n.count >= size then 1 else 0)
  }

  /** No node has left more barriers than any node has entered. */
  ghost predicate Safe(ns: Nodes) {
    forall i, j :: 0 <= i < |ns| && 0 <= j < |ns| ==> ns[j].left <= ns[i].entered
  }

  ghost predicate Inv(ns: Nodes) {
    Safe(ns) && forall j :: 0 <= j < |ns| ==> NodeOk(ns, j)
  }

  lemma {:induction false} Distribute(size: nat, left: nat)
    ensures size * (left + 1) == size * left + size
    ensures size * (left + 2) == size * left + 2 * size
  {
  }

  /** The counter never reaches twice the number of nodes, and is below the number of nodes
      whenever its node is outside the barrier. */
  lemma {:induction false} CountBound(ns: Nodes, j: nat)
    requires Inv(ns) && j < |ns|
    ensures ns[j].count <= 2 * |ns| - 1
    ensures ns[j].phase.Outside? ==> ns[j].count < |ns|
  {
    var n, size := ns[j], |ns|;
    assert NodeOk(ns, j);
    var c := n.entered + 1;
    forall i | 0 <= i < size ensures n.got[i] <= c {
      assert NodeOk(ns, i) && ns[i].left <= n.entered;
    }
    SumAtMost(n.got, c, j, 1);
    Distribute(size, n.left);
    assert size * c == if n.phase.Outside? then size * (n.left + 1) else size * (n.left + 2);
  }

  /** A node that finds its predicate true in its k-th barrier knows that all nodes have
      entered theirs: were one missing, nobody could have left the k-th, so at most one
      message per node and round is out, and the missing node's is not. */
  lemma {:induction false} LeavingIsSafe(ns: Nodes, j: nat, i: nat)
    requires Inv(ns) && j < |ns| && i < |ns| && ns[j].count >= |ns|
    ensures ns[j].left + 1 <= ns[i].entered
  {
    var n, size := ns[j], |ns|;
    assert NodeOk(ns, j);
    assert size * (n.left + 1) == size * n.left + size;
    if ns[i].entered <= n.left {
      var c := n.left + 1;
      forall x | 0 <= x < size ensures n.got[x] <= c {
        assert NodeOk(ns, x) && ns[x].left <= ns[i].entered;
      }
      SumAtMost(n.got, c, i, 1);
    }
  }

  lemma {:induction false} ArriveOk(ns: Nodes, i: nat, j: nat)
    requires Inv(ns) && Enabled(ns, Arrive(i, j))
    ensures NodeOk(After(ns, Arrive(i, j)), j)
  {
    var n, size := ns[j], |ns|;
    assert NodeOk(ns, j);
    SumBump(n.got, i);
    var n' := AfterNode(n, size, Arrive(i, j));
    assert n'.got == n.got[i := n.got[i] + 1] && n'.left == n.left && n'.entered == n.entered;
    assert n'.count + size * n'.left == Sum(n'.got);
  }

  lemma {:induction false} StepNodeOk(ns: Nodes, e: Event)
    requires Inv(ns) && Enabled(ns, e)
    ensures NodeOk(After(ns, e), e.j)
  {
    var n, size := ns[e.j], |ns|;
    assert NodeOk(ns, e.j);
    CountBound(ns, e.j);
    match e
    case Enter(j) =>
    case Check(j) => Distribute(size, n.left);
    case Arrive(i, j) => ArriveOk(ns, i, j);
    case SpuriousWake(j) =>
  }

  lemma {:induction false} StepInv(ns: Nodes, e: Event)
    requires Inv(ns) && Enabled(ns, e)
    ensures Inv(After(ns, e))
  {
    var ns' := After(ns, e);
    forall x | 0 <= x < |ns'| ensures NodeOk(ns', x) {
      if x == e.j {
        StepNodeOk(ns, e);
      } else {
        assert NodeOk(ns, x);
      }
    }
    forall i, x | 0 <= i < |ns'| && 0 <= x < |ns'| ensures ns'[x].left <= ns'[i].entered {
      assert ns[x].left <= ns[i].entered;
      if e.Check? && x == e.j && ns[x].count >= |ns| {
        LeavingIsSafe(ns, x, i);
      }
    }
  }

  lemma {:induction false} RunInv(states: seq<Nodes>, events: seq<Event>, t: nat)
    requires IsRun(states, events) && t <= |events|
    ensures Inv(states[t]) && |states[t]| == |states[0]|
  {
    if t == 0 {
      SumOfZeros(|states[0]|);
    } else {
      RunInv(states, events, t - 1);
      StepInv(states[t - 1], events[t - 1]);
    }
  }

  /* ----- The guarantees ----- */

  /** BARRIER SAFETY. In every run, when a node returns from its k-th `Barrier`, every node
      has entered its k-th `Barrier`. */
  lemma {:induction false} NobodyLeavesEarly(states: seq<Nodes>, events: seq<Event>, t: nat, i: nat, j: nat, k: nat)
    requires IsRun(states, events) && t <= |events| && i < |states[t]| && j < |states[t]|
    requires states[t][j].left >= k
    ensures states[t][i].entered >= k
  {
    RunInv(states, events, t);
  }

  /** COUNTER BOUND AND NO LOST WAKE-UP. In every reachable state the counter is at most
      2N - 1 and below N outside the barrier; the exact test for N has fired once for each
      barrier left and once more exactly when the node may leave; and no node sleeps while
      its wait predicate holds. */
  lemma {:induction false} NoLostWakeUp(states: seq<Nodes>, events: seq<Event>, t: nat, j: nat)
    requires IsRun(states, events) && t <= |events| && j < |states[t]|
    ensures var n, size := states[t][j], |states[t]|;
            && 0 <= n.count <= 2 * size - 1
            && (n.phase.Outside? ==> n.count < size)
            && n.fired == n.left + (if n.count >= size then 1 else 0)
            && (n.phase.Sleeping? ==> n.count < size)
  {
    RunInv(states, events, t);
    CountBound(states[t], j);
    assert NodeOk(states[t], j);
  }

  predicate NothingInFlight(ns: Nodes) {
    forall i, j :: 0 <= i < |ns| && 0 <= j < |ns| ==> |ns[j].got| == |ns| && ns[j].got[i] == ns[i].entered
  }

  /** PROGRESS. When nothing is in flight, a node can sleep only for the sake of a node that
      has entered fewer barriers; so if all have entered equally many, nobody sleeps. */
  lemma {:induction false} SleepersWaitForLaggards(states: seq<Nodes>, events: seq<Event>, t: nat, j: nat) returns (i: nat)
    requires IsRun(states, events) && t <= |events| && j < |states[t]|
    requires NothingInFlight(states[t]) && states[t][j].phase.Sleeping?
    ensures i < |states[t]| && states[t][i].entered < states[t][j].entered
  {
    var ns := states[t];
    RunInv(states, events, t);
    assert NodeOk(ns, j);
    assert |ns| * ns[j].entered == |ns| * ns[j].left + |ns|;
    i := SumBelowHasSmall(ns[j].got, ns[j].entered);
  }

  /* ----- Barriers return ----- */

  /** In every run: a node that tests its predicate with `count >= N` leaves the barrier and
      takes exactly N off the counter; with fewer it goes to sleep. Nobody else is affected. */
  lemma {:induction false} CheckDecides(states: seq<Nodes>, events: seq<Event>, t: nat)
    requires IsRun(states, events) && t < |events| && events[t].Check?
    ensures var j, size := events[t].j, |states[t]|;
            && j < size == |states[t + 1]|
            && (states[t][j].count >= size ==>
                  && states[t + 1][j].phase == Outside && states[t + 1][j].left == states[t][j].left + 1
                  && states[t + 1][j].count == states[t][j].count - size)
            && (states[t][j].count < size ==>
                  && states[t + 1][j].phase == Sleeping && states[t + 1][j].left == states[t][j].left
                  && states[t + 1][j].count == states[t][j].count)
            && states[t + 1][j].entered == states[t][j].entered
            && forall i :: 0 <= i < size && i != j ==> states[t + 1][i] == states[t][i]
  {
    assert Enabled(states[t], events[t]) && states[t + 1] == After(states[t], events[t]);
  }

  predicate AllEntered(ns: Nodes, k: nat) {
    forall j :: 0 <= j < |ns| ==> ns[j].entered == k
  }

  /** A node that is done with its k-th barrier, or is about to find its predicate true. */
  predicate Settled(n: Node, size: nat, k: nat) {
    && n.entered == k
    && (n.phase.Outside? ==> n.left == k && n.count == 0)
    && (!n.phase.Outside? ==> n.phase.Checking? && n.left + 1 == k && n.count == size)
  }

  lemma {:induction false} SumOfEqual(s: seq<nat>, c: nat)
    requires forall x :: 0 <= x < |s| ==> s[x] == c
    ensures Sum(s) == |s| * c
  {
    if s != [] {
      SumOfEqual(s[..|s| - 1], c);
      assert |s| * c == (|s| - 1) * c + c;
    }
  }

  lemma {:induction false} QuietMeansSettled(ns: Nodes, k: nat, j: nat)
    requires Inv(ns) && NothingInFlight(ns) && AllEntered(ns, k) && j < |ns|
    ensures Settled(ns[j], |ns|, k)
  {
    var n, size := ns[j], |ns|;
    assert NodeOk(ns, j);
    forall x | 0 <= x < size ensures n.got[x] == k {
      assert ns[x].entered == k;
    }
    SumOfEqual(n.got, k);
    if !n.phase.Outside? {
      Distribute(size, n.left);
      assert size * k == size * (n.left + 1);
    }
  }

  /** The events from `t` to `u` contain no new entry. */
  ghost predicate NoEntry(events: seq<Event>, t: nat, u: nat)
    requires t <= u <= |events|
  {
    forall i :: t <= i < u ==> !events[i].Enter?
  }

  ghost predicate Checks(events: seq<Event>, t: nat, u: nat, j: nat)
    requires t <= u <= |events|
  {
    exists i :: t <= i < u && events[i] == Check(j)
  }

  /** With nothing in flight and no new entry, only tests happen, and each lets a node out. */
  lemma {:induction false} SettledStep(ns: Nodes, e: Event, k: nat)
    requires Inv(ns) && Enabled(ns, e) && NothingInFlight(ns) && AllEntered(ns, k) && !e.Enter?
    ensures e.Check? && NothingInFlight(After(ns, e)) && AllEntered(After(ns, e), k)
    ensures After(ns, e)[e.j].phase == Outside
  {
    QuietMeansSettled(ns, k, e.j);
  }

  lemma {:induction false} SettledRun(states: seq<Nodes>, events: seq<Event>, t: nat, u: nat, k: nat, j: nat)
    requires IsRun(states, events) && t <= u <= |events| && j < |states[t]|
    requires NothingInFlight(states[t]) && AllEntered(states[t], k) && NoEntry(events, t, u)
    ensures |states[u]| == |states[t]| && NothingInFlight(states[u]) && AllEntered(states[u], k)
    ensures states[t][j].phase.Outside? || Checks(events, t, u, j) ==> states[u][j].phase == Outside
    decreases u
  {
    if t < u {
      var ns, e := states[u - 1], events[u - 1];
      SettledRun(states, events, t, u - 1, k, j);
      RunInv(states, events, u - 1);
      assert Enabled(ns, e) && states[u] == After(ns, e);
      SettledStep(ns, e, k);
      if Checks(events, t, u, j) && !Checks(events, t, u - 1, j) {
        assert e == Check(j);
      }
    }
  }

  /** EVERYBODY RETURNS. Take any reachable state with nothing in flight in which every node
      has entered k barriers, and any continuation without a new entry in which every node
      that is still inside tests its predicate: at its end every node has left its k-th
      barrier. And until then every node that is inside can test. */
  lemma {:induction false} EverybodyReturns(states: seq<Nodes>, events: seq<Event>, t: nat, u: nat, k: nat, j: nat)
    requires IsRun(states, events) && t <= u <= |events| && j < |states[t]|
    requires NothingInFlight(states[t]) && AllEntered(states[t], k) && NoEntry(events, t, u)
    ensures |states[u]| == |states[t]|
    ensures states[t][j].phase.Outside? || Checks(events, t, u, j) ==> states[u][j].phase == Outside && states[u][j].left == k
    ensures states[u][j].phase != Outside ==> Enabled(states[u], Check(j))
  {
    SettledRun(states, events, t, u, k, j);
    RunInv(states, events, u);
    QuietMeansSettled(states[u], k, j);
  }

  /** NEVER STUCK. In every reachable state in which all nodes have entered equally many
      barriers and some node is inside, a message can arrive or that node can test. */
  lemma {:induction false} BarrierIsNeverStuck(states: seq<Nodes>, events: seq<Event>, t: nat, k: nat, j: nat) returns (e: Event)
    requires IsRun(states, events) && t <= |events| && j < |states[t]|
    requires AllEntered(states[t], k) && states[t][j].phase != Outside
    ensures Enabled(states[t], e) && (e.Arrive? || e == Check(j))
  {
    var ns := states[t];
    RunInv(states, events, t);
    if NothingInFlight(ns) {
      QuietMeansSettled(ns, k, j);
      e := Check(j);
    } else {
      forall x | 0 <= x < |ns| ensures |ns[x].got| == |ns| {
        assert NodeOk(ns, x);
      }
      var i, x :| 0 <= i < |ns| && 0 <= x < |ns| && ns[x].got[i] != ns[i].entered;
      assert NodeOk(ns, x);
      e := Arrive(i, x);
    }
  }
}
