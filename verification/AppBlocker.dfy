/** AppBlocker: application threads wait for the replies that helper threads hand in, as
    interleaved atomic steps.

    `AddResponse` is three steps: it decides under the lock whether this reply is the last
    one, runs the handler without the lock, and counts the reply under the lock, notifying
    if it had decided so. All application threads share one condition variable. */
module AppBlocker {
  import opened Messages

  /** `Working`: outside any request. `Testing`: about to evaluate the wait predicate. */
  datatype Phase = Working | Testing | Sleeping

  /** An `AddResponse` call in progress; `last` is what its first step decided. */
  datatype Call = Checked(last: bool) | Handled(last: bool)

  /** `expected` and `received` are the tracker's pair; `arriving` are replies no helper has
      picked up; `handled` counts handler runs for the current request. */
  datatype App = App(phase: Phase, expected: nat, received: nat, arriving: nat, calls: seq<Call>, handled: nat)

  type Apps = map<Tid, App>

  datatype Event =
    | NewRequest(a: Tid, responses: nat)
    | Test(a: Tid)
    | SpuriousWake(a: Tid)
    | Begin(a: Tid)
    | RunHandler(a: Tid, x: nat)
    | Finish(a: Tid, x: nat)

  predicate EnabledFor(p: App, e: Event) {
    match e
    case NewRequest(_, _) => p.phase.Working?
    case Test(_) => p.phase.Testing?
    case SpuriousWake(_) => p.phase.Sleeping?
    case Begin(_) => p.arriving > 0
    case RunHandler(_, x) => x < |p.calls| && p.calls[x].Checked?
    case Finish(_, x) => x < |p.calls| && p.calls[x].Handled?
  }

  predicate Enabled(apps: Apps, e: Event) {
    e.a in apps && EnabledFor(apps[e.a], e)
  }

  /** The effect on the application thread that the event names. */
  function AfterApp(p: App, e: Event): App
    requires e.Begin? ==> p.arriving > 0
    requires e.RunHandler? || e.Finish? ==> e.x < |p.calls|
  {
    match e
    case NewRequest(_, n) => App(Testing, n, 0, n, p.calls, 0)
    case Test(_) => p.(phase := if p.expected == p.received then Working else Sleeping)
    case SpuriousWake(_) => p.(phase := Testing)
    case Begin(_) => p.(arriving := p.arriving - 1, calls := p.calls + [Checked(p.expected == p.received + 1)])
    case RunHandler(_, x) => p.(calls := p.calls[x := Handled(p.calls[x].last)], handled := p.handled + 1)
    case Finish(_, x) => p.(calls := p.calls[..x] + p.calls[x + 1..], received := p.received + 1)
  }

  function Woken(p: App): App {
    if p.phase.Sleeping? then p.(phase := Testing) else p
  }

  function After(apps: Apps, e: Event): Apps
    requires Enabled(apps, e)
  {
    var apps' := apps[e.a := AfterApp(apps[e.a], e)];
    if e.Finish? && apps[e.a].calls[e.x].last then map a | a in apps' :: Woken(apps'[a]) else apps'
  }

  predicate Start(apps: Apps) {
    forall a :: a in apps ==> apps[a] == App(Working, 0, 0, 0, [], 0)
  }

  ghost predicate IsRun(states: seq<Apps>, events: seq<Event>) {
    && |states| == |events| + 1
    && Start(states[0])
    && forall t :: 0 <= t < |events| ==> Enabled(states[t], events[t]) && states[t + 1] == After(states[t], events[t])
  }

  /** Each application thread is served by one helper, which handles one reply at a time. */
  predicate OneHelperEach(apps: Apps, e: Event) {
    e.Begin? && e.a in apps ==> apps[e.a].calls == []
  }

  /* ----- Safety, for any number of helpers ----- */

  function CountHandled(calls: seq<Call>): nat {
    if calls == [] then 0
    else CountHandled(calls[..|calls| - 1]) + if calls[|calls| - 1].Handled? then 1 else 0
  }

  lemma {:induction false} CountHandledConcat(a: seq<Call>, b: seq<Call>)
    ensures CountHandled(a + b) == CountHandled(a) + CountHandled(b)
  {
    if b == [] {
      assert a + b == a;
    } else {
      CountHandledConcat(a, b[..|b| - 1]);
      assert (a + b)[..|a + b| - 1] == a + b[..|b| - 1];
    }
  }

  lemma {:induction false} CountHandledSplit(calls: seq<Call>, x: nat)
    requires x < |calls|
    ensures CountHandled(calls) ==
            CountHandled(calls[..x]) + (if calls[x].Handled? then 1 else 0) + CountHandled(calls[x + 1..])
  {
    assert calls == calls[..x] + [calls[x]] + calls[x + 1..];
    CountHandledConcat(calls[..x] + [calls[x]], calls[x + 1..]);
    CountHandledConcat(calls[..x], [calls[x]]);
    assert CountHandled([calls[x]]) == if calls[x].Handled? then 1 else 0;
  }

  /** Every expected reply is still arriving, being handled, or counted; a thread outside a
      request has none of them left. */
  ghost predicate AppOk(p: App) {
    && p.arriving + |p.calls| + p.received == p.expected
    && p.handled == p.received + CountHandled(p.calls)
    && (p.phase.Working? ==> p.received == p.expected)
  }

  lemma {:induction false} AfterAppOk(p: App, e: Event)
    requires AppOk(p)
    requires e.NewRequest? ==> p.phase.Working?
    requires e.Begin? ==> p.arriving > 0
    requires e.RunHandler? ==> e.x < |p.calls| && p.calls[e.x].Checked? && !p.phase.Working?
    requires e.Finish? ==> e.x < |p.calls| && p.calls[e.x].Handled? && !p.phase.Working?
    ensures AppOk(AfterApp(p, e))
  {
    match e
    case Begin(_) => CountHandledConcat(p.calls, [Checked(p.expected == p.received + 1)]);
    case RunHandler(_, x) =>
      var calls' := AfterApp(p, e).calls;
      CountHandledSplit(p.calls, x);
      CountHandledSplit(calls', x);
      assert calls'[..x] == p.calls[..x] && calls'[x + 1..] == p.calls[x + 1..];
    case Finish(_, x) =>
      CountHandledSplit(p.calls, x);
      CountHandledConcat(p.calls[..x], p.calls[x + 1..]);
    case _ =>
  }

  lemma {:induction false} RunAppsOk(states: seq<Apps>, events: seq<Event>, t: nat)
    requires IsRun(states, events) && t <= |events|
    ensures states[t].Keys == states[0].Keys
    ensures forall a :: a in states[t] ==> AppOk(states[t][a])
  {
    if t > 0 {
      RunAppsOk(states, events, t - 1);
      var apps, e := states[t - 1], events[t - 1];
      assert AppOk(apps[e.a]);
      AfterAppOk(apps[e.a], e);
      assert states[t] == After(apps, e);
    }
  }

  /** COMPLETENESS OF A WAIT. In every run, whatever the helpers do: when `WaitRequest` has
      returned, the handler has run exactly once per expected response, and no handler call
      is pending or in progress, so the caller's cache is never touched afterwards. */
  lemma {:induction false} ReturnsOnlyWhenAllHandled(states: seq<Apps>, events: seq<Event>, t: nat, a: Tid)
    requires IsRun(states, events) && t <= |events| && a in states[t] && states[t][a].phase.Working?
    ensures var p := states[t][a]; p.handled == p.expected && p.arriving == 0 && p.calls == []
  {
    RunAppsOk(states, events, t);
    assert AppOk(states[t][a]);
  }

  /* ----- No lost wake-up, with one helper per application thread ----- */

  /** A call in progress has decided correctly whether it is the last one, and a sleeping
      thread's predicate is false. */
  ghost predicate HelperOk(p: App) {
    && |p.calls| <= 1
    && (|p.calls| == 1 ==> p.calls[0].last == (p.expected == p.received + 1))
    && (p.phase.Sleeping? ==> p.received != p.expected)
  }

  lemma {:induction false} RunHelpersOk(states: seq<Apps>, events: seq<Event>, t: nat)
    requires IsRun(states, events) && t <= |events|
    requires forall i :: 0 <= i < t ==> OneHelperEach(states[i], events[i])
    ensures forall a :: a in states[t] ==> HelperOk(states[t][a])
  {
    if t > 0 {
      RunHelpersOk(states, events, t - 1);
      RunAppsOk(states, events, t - 1);
      var apps, e := states[t - 1], events[t - 1];
      assert OneHelperEach(apps, e);
      assert AppOk(apps[e.a]) && HelperOk(apps[e.a]);
      assert states[t] == After(apps, e);
    }
  }

  /** NO LOST WAKE-UP. If each application thread is served by one helper, then in every
      reachable state a sleeping thread's count is incomplete: once the count is complete
      the thread has been notified and will see its predicate true. */
  lemma {:induction false} SleeperIsIncomplete(states: seq<Apps>, events: seq<Event>, t: nat, a: Tid)
    requires IsRun(states, events) && t <= |events| && a in states[t] && states[t][a].phase.Sleeping?
    requires forall i :: 0 <= i < t ==> OneHelperEach(states[i], events[i])
    ensures var p := states[t][a]; p.received < p.expected && p.arriving + |p.calls| > 0
  {
    RunHelpersOk(states, events, t);
    RunAppsOk(states, events, t);
    assert AppOk(states[t][a]) && HelperOk(states[t][a]);
  }

  /* ----- Waits return ----- */

  /** In every run, whatever the helpers do: a thread that tests with a complete count returns
      from its wait, all its replies handled; with an incomplete one it goes to sleep. */
  lemma {:induction false} TestDecides(states: seq<Apps>, events: seq<Event>, t: nat)
    requires IsRun(states, events) && t < |events| && events[t].Test?
    ensures var a := events[t].a;
            && a in states[t] && a in states[t + 1]
            && var p, p' := states[t][a], states[t + 1][a];
               && p'.expected == p.expected && p'.received == p.received
               && (p.received == p.expected ==> p'.phase == Working && p'.handled == p'.expected && p'.calls == [])
               && (p.received != p.expected ==> p'.phase == Sleeping)
  {
    assert Enabled(states[t], events[t]) && states[t + 1] == After(states[t], events[t]);
    RunAppsOk(states, events, t + 1);
    assert AppOk(states[t + 1][events[t].a]);
  }

  /** A reply that has decided it is the last leaves nobody asleep. */
  lemma {:induction false} LastReplyWakesAll(states: seq<Apps>, events: seq<Event>, t: nat, a: Tid)
    requires IsRun(states, events) && t < |events| && events[t].Finish? && a in states[t]
    requires events[t].a in states[t] && events[t].x < |states[t][events[t].a].calls|
    requires states[t][events[t].a].calls[events[t].x].last
    ensures a in states[t + 1] && states[t + 1][a].phase != Sleeping
  {
    assert Enabled(states[t], events[t]) && states[t + 1] == After(states[t], events[t]);
  }

  ghost predicate OneHelperRun(states: seq<Apps>, events: seq<Event>) {
    IsRun(states, events) && forall i :: 0 <= i < |events| ==> OneHelperEach(states[i], events[i])
  }

  /** The thread is about to test, and its count is complete. */
  predicate ReadyToReturn(apps: Apps, a: Tid) {
    a in apps && apps[a].phase.Testing? && apps[a].received == apps[a].expected
  }

  /** With one helper each, a thread inside a request whose count is complete is awake. */
  lemma {:induction false} CompleteIsReady(states: seq<Apps>, events: seq<Event>, t: nat, a: Tid)
    requires OneHelperRun(states, events) && t <= |events| && a in states[t]
    requires !states[t][a].phase.Working? && states[t][a].received == states[t][a].expected
    ensures ReadyToReturn(states[t], a)
  {
    if states[t][a].phase.Sleeping? {
      SleeperIsIncomplete(states, events, t, a);
    }
  }

  lemma {:induction false} StaysReady(apps: Apps, e: Event, a: Tid)
    requires Enabled(apps, e) && ReadyToReturn(apps, a) && AppOk(apps[a]) && e != Test(a)
    ensures ReadyToReturn(After(apps, e), a)
  {
  }

  lemma {:induction false} ReadyUntilTest(states: seq<Apps>, events: seq<Event>, t: nat, u: nat, a: Tid)
    requires IsRun(states, events) && t <= u <= |events| && ReadyToReturn(states[t], a)
    requires forall i :: t <= i < u ==> events[i] != Test(a)
    ensures ReadyToReturn(states[u], a)
    decreases u
  {
    if t < u {
      ReadyUntilTest(states, events, t, u - 1, a);
      RunAppsOk(states, events, u - 1);
      assert Enabled(states[u - 1], events[u - 1]) && states[u] == After(states[u - 1], events[u - 1]);
      StaysReady(states[u - 1], events[u - 1], a);
    }
  }

  /** RETURNS AT THE NEXT TEST. In every one-helper run: once the count of a thread inside a
      request is complete, its next test, however much later and whatever the others do in
      between, ends the wait with every expected reply handled. */
  lemma {:induction false} ReturnsAtNextTest(states: seq<Apps>, events: seq<Event>, t: nat, u: nat, a: Tid)
    requires OneHelperRun(states, events) && t <= u < |events| && a in states[t]
    requires !states[t][a].phase.Working? && states[t][a].received == states[t][a].expected
    requires events[u] == Test(a) && forall i :: t <= i < u ==> events[i] != Test(a)
    ensures a in states[u + 1]
    ensures var p := states[u + 1][a]; p.phase == Working && p.handled == p.expected && p.calls == []
  {
    CompleteIsReady(states, events, t, a);
    ReadyUntilTest(states, events, t, u, a);
    TestDecides(states, events, u);
  }

  /** The steps that helpers still have to take for the thread: three for a reply that no
      helper has picked up, two for one not yet handled, one for one not yet counted. */
  function Work(p: App): int {
    3 * p.arriving + 2 * |p.calls| - CountHandled(p.calls)
  }

  lemma {:induction false} WorkFalls(p: App, e: Event)
    requires EnabledFor(p, e) && (e.Begin? || e.RunHandler? || e.Finish?)
    ensures Work(AfterApp(p, e)) < Work(p)
  {
    match e
    case Begin(_) => CountHandledConcat(p.calls, [Checked(p.expected == p.received + 1)]);
    case RunHandler(_, x) =>
      var calls' := AfterApp(p, e).calls;
      CountHandledSplit(p.calls, x);
      CountHandledSplit(calls', x);
      assert calls'[..x] == p.calls[..x] && calls'[x + 1..] == p.calls[x + 1..];
    case Finish(_, x) =>
      CountHandledSplit(p.calls, x);
      CountHandledConcat(p.calls[..x], p.calls[x + 1..]);
  }

  /** NEVER STUCK. In every one-helper run a thread inside a request has an event, open to its
      one helper, that brings it nearer: a helper step as long as its count is incomplete,
      and its own test after that. */
  lemma {:induction false} WaitIsNeverStuck(states: seq<Apps>, events: seq<Event>, t: nat, a: Tid) returns (e: Event)
    requires OneHelperRun(states, events) && t <= |events| && a in states[t] && !states[t][a].phase.Working?
    ensures e.a == a && Enabled(states[t], e) && OneHelperEach(states[t], e)
    ensures states[t][a].received == states[t][a].expected ==> e == Test(a)
    ensures states[t][a].received != states[t][a].expected ==> Work(AfterApp(states[t][a], e)) < Work(states[t][a])
  {
    var p := states[t][a];
    RunAppsOk(states, events, t);
    assert AppOk(p);
    if p.received == p.expected {
      CompleteIsReady(states, events, t, a);
      e := Test(a);
    } else {
      if p.calls == [] {
        e := Begin(a);
      } else if p.calls[0].Checked? {
        e := RunHandler(a, 0);
      } else {
        e := Finish(a, 0);
      }
      WorkFalls(p, e);
    }
  }

  /* ----- The exact number of helpers ----- */

  /** Never more than `helpers` replies of a thread are being handled at once. */
  ghost predicate AtMostCalls(states: seq<Apps>, helpers: nat) {
    forall t, a :: 0 <= t < |states| && a in states[t] ==> |states[t][a].calls| <= helpers
  }

  /** A run with at most that many that ends with thread `a` asleep. */
  ghost predicate EndsAsleep(states: seq<Apps>, events: seq<Event>, a: Tid, helpers: nat) {
    && IsRun(states, events) && AtMostCalls(states, helpers)
    && a in states[|events|] && states[|events|][a].phase.Sleeping?
  }

  predicate Incomplete(apps: Apps, a: Tid) {
    a in apps && apps[a].received < apps[a].expected
  }

  /** In every such run the sleeping thread's count is incomplete. */
  ghost predicate NeverLosesWakeUp(helpers: nat) {
    forall states, events, a :: EndsAsleep(states, events, a, helpers) ==> Incomplete(states[|events|], a)
  }

  /** A run of the single thread `a`, with at most two calls at once, that ends in `p`. */
  ghost predicate RunsTo(states: seq<Apps>, events: seq<Event>, a: Tid, p: App) {
    IsRun(states, events) && AtMostCalls(states, 2) && states[|events|] == map[a := p]
  }

  lemma {:induction false} ExtendRun(states: seq<Apps>, events: seq<Event>, e: Event, a: Tid, p: App, p': App)
      returns (states': seq<Apps>, events': seq<Event>)
    requires RunsTo(states, events, a, p)
    requires e.a == a && EnabledFor(p, e) && !(e.Finish? && p.calls[e.x].last)
    requires p' == AfterApp(p, e) && |p'.calls| <= 2
    ensures RunsTo(states', events', a, p')
  {
    states', events' := states + [map[a := p']], events + [e];
    assert After(states[|events|], e) == map[a := p'];
  }

  /** Two replies reach a sleeping thread, and both helpers find that theirs is not the last. */
  lemma {:induction false} BothDecideEarly(a: Tid) returns (states: seq<Apps>, events: seq<Event>)
    ensures RunsTo(states, events, a, App(Sleeping, 2, 0, 0, [Checked(false), Checked(false)], 0))
  {
    var c := Checked(false);
    var p0 := App(Working, 0, 0, 0, [], 0);
    var p1, p2 := App(Testing, 2, 0, 2, [], 0), App(Sleeping, 2, 0, 2, [], 0);
    var p3, p4 := App(Sleeping, 2, 0, 1, [c], 0), App(Sleeping, 2, 0, 0, [c, c], 0);
    states, events := [map[a := p0]], [];
    states, events := ExtendRun(states, events, NewRequest(a, 2), a, p0, p1);
    states, events := ExtendRun(states, events, Test(a), a, p1, p2);
    states, events := ExtendRun(states, events, Begin(a), a, p2, p3);
    states, events := ExtendRun(states, events, Begin(a), a, p3, p4);
  }

  /** With two helpers the wake-up can be lost: both decide before either counts, neither
      notifies, and the thread sleeps although its count is complete and nothing is left
      that would wake it. */
  lemma {:induction false} TwoHelpersLoseWakeUp(a: Tid) returns (states: seq<Apps>, events: seq<Event>)
    ensures IsRun(states, events) && AtMostCalls(states, 2) && a in states[|events|]
    ensures var p := states[|events|][a];
            p.phase.Sleeping? && p.received == p.expected && p.arriving == 0 && p.calls == []
  {
    var c, h := Checked(false), Handled(false);
    var p4, p5 := App(Sleeping, 2, 0, 0, [c, c], 0), App(Sleeping, 2, 0, 0, [h, c], 1);
    var p6, p7 := App(Sleeping, 2, 0, 0, [h, h], 2), App(Sleeping, 2, 1, 0, [h], 2);
    var p8 := App(Sleeping, 2, 2, 0, [], 2);
    states, events := BothDecideEarly(a);
    states, events := ExtendRun(states, events, RunHandler(a, 0), a, p4, p5);
    states, events := ExtendRun(states, events, RunHandler(a, 1), a, p5, p6);
    states, events := ExtendRun(states, events, Finish(a, 0), a, p6, p7);
    states, events := ExtendRun(states, events, Finish(a, 0), a, p7, p8);
  }

  lemma {:induction false} OneCallIsOneHelper(states: seq<Apps>, events: seq<Event>, t: nat)
    requires IsRun(states, events) && AtMostCalls(states, 1) && t < |events|
    ensures OneHelperEach(states[t], events[t])
  {
    var a := events[t].a;
    assert Enabled(states[t], events[t]) && states[t + 1] == After(states[t], events[t]);
    assert a in states[t + 1] && |states[t + 1][a].calls| <= 1;
  }

  /** EXACT CONDITION. No run loses a wake-up if and only if at most one reply of a thread is
      handled at a time. */
  lemma {:induction false} OneHelperIsExact(helpers: nat)
    ensures NeverLosesWakeUp(helpers) <==> helpers <= 1
  {
    if helpers <= 1 {
      forall states, events, a | EndsAsleep(states, events, a, helpers)
        ensures Incomplete(states[|events|], a)
      {
        forall t | 0 <= t < |events| ensures OneHelperEach(states[t], events[t]) {
          OneCallIsOneHelper(states, events, t);
        }
        SleeperIsIncomplete(states, events, |events|, a);
      }
    } else {
      var states, events := TwoHelpersLoseWakeUp(0);
      assert EndsAsleep(states, events, 0, helpers);
    }
  }
}
