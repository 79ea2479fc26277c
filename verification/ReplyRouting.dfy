/** Replies reach an application thread through the one helper that the id allocator chose
    for it, and a helper runs one `AddResponse` at a time. */
module ReplyRouting {
  import opened Messages
  import opened AppBlocker
  import I = IdMapping

  /** `busy` are the helpers inside `AddResponse`, with the thread they serve. */
  datatype System = System(apps: Apps, busy: map<int, Tid>)

  /** A thread's replies are in the work queue of its helper. The helper takes one when it is
      idle; in which order is left open. */
  predicate CanStep(y: System, helperOf: map<nat, nat>, e: Event) {
    && Enabled(y.apps, e) && e.a in helperOf
    && (e.Begin? ==> helperOf[e.a] !in y.busy)
    && (e.RunHandler? || e.Finish? ==> helperOf[e.a] in y.busy && y.busy[helperOf[e.a]] == e.a)
  }

  function Next(y: System, helperOf: map<nat, nat>, e: Event): System
    requires CanStep(y, helperOf, e)
  {
    System(After(y.apps, e),
           match e
           case Begin(a) => y.busy[helperOf[a] := a]
           case Finish(a, _) => y.busy - {helperOf[a]}
           case _ => y.busy)
  }

  ghost predicate IsRoutedRun(ys: seq<System>, helperOf: map<nat, nat>, events: seq<Event>) {
    && |ys| == |events| + 1
    && Start(ys[0].apps) && ys[0].busy == map[]
    && forall t :: 0 <= t < |events| ==> CanStep(ys[t], helperOf, events[t]) && ys[t + 1] == Next(ys[t], helperOf, events[t])
  }

  /** A thread with a reply in progress has its helper to itself. */
  ghost predicate Served(y: System, helperOf: map<nat, nat>, a: Tid)
    requires a in y.apps
  {
    && |y.apps[a].calls| <= 1
    && (y.apps[a].calls != [] ==> a in helperOf && helperOf[a] in y.busy && y.busy[helperOf[a]] == a)
  }

  lemma {:induction false} CallsAfter(p: App, e: Event)
    requires EnabledFor(p, e) && |p.calls| <= 1 && (e.Begin? ==> p.calls == [])
    ensures var calls := AfterApp(p, e).calls;
            |calls| <= 1 && (e.Finish? ==> calls == []) && (calls != [] ==> e.Begin? || p.calls != [])
  {
    if e.Finish? {
      assert e.x == 0;
    }
  }

  lemma {:induction false} AfterCalls(apps: Apps, e: Event, a: Tid)
    requires Enabled(apps, e) && a in apps
    ensures a in After(apps, e)
    ensures After(apps, e)[a].calls == if a == e.a then AfterApp(apps[a], e).calls else apps[a].calls
  {
  }

  lemma {:induction false} NextServed(y: System, helperOf: map<nat, nat>, e: Event, a: Tid)
    requires CanStep(y, helperOf, e) && a in y.apps && Served(y, helperOf, a) && Served(y, helperOf, e.a)
    ensures a in Next(y, helperOf, e).apps && Served(Next(y, helperOf, e), helperOf, a)
  {
    AfterCalls(y.apps, e, a);
    if a == e.a {
      CallsAfter(y.apps[a], e);
    }
  }

  lemma {:induction false} RunServed(ys: seq<System>, helperOf: map<nat, nat>, events: seq<Event>, t: nat)
    requires IsRoutedRun(ys, helperOf, events) && t <= |events|
    ensures forall a :: a in ys[t].apps ==> Served(ys[t], helperOf, a)
  {
    if t > 0 {
      RunServed(ys, helperOf, events, t - 1);
      var y, e := ys[t - 1], events[t - 1];
      assert CanStep(y, helperOf, e) && ys[t] == Next(y, helperOf, e);
      forall a | a in ys[t].apps ensures Served(ys[t], helperOf, a) {
        NextServed(y, helperOf, e, a);
      }
    }
  }

  /** What the application threads go through in a routed run. */
  function AppsOf(ys: seq<System>): seq<Apps> {
    seq(|ys|, t requires 0 <= t < |ys| => ys[t].apps)
  }

  /** ONE HELPER EACH. Routing by any worker-to-helper table makes every run one in which
      each thread is served by one helper. */
  lemma {:induction false} RoutingGivesOneHelper(ys: seq<System>, helperOf: map<nat, nat>, events: seq<Event>)
    requires IsRoutedRun(ys, helperOf, events)
    ensures IsRun(AppsOf(ys), events)
    ensures forall t :: 0 <= t < |events| ==> OneHelperEach(AppsOf(ys)[t], events[t])
  {
    forall t | 0 <= t < |events|
      ensures Enabled(ys[t].apps, events[t]) && ys[t + 1].apps == After(ys[t].apps, events[t])
      ensures OneHelperEach(ys[t].apps, events[t])
    {
      assert CanStep(ys[t], helperOf, events[t]) && ys[t + 1] == Next(ys[t], helperOf, events[t]);
      RunServed(ys, helperOf, events, t);
      assert Served(ys[t], helperOf, events[t].a);
    }
  }

  /* ----- Helpers become free again ----- */

  /** A busy helper is the one its thread is routed to, and has that thread's reply in
      progress. */
  ghost predicate BusyOk(y: System, helperOf: map<nat, nat>, helper: int) {
    helper in y.busy ==>
      var a := y.busy[helper];
      a in y.apps && a in helperOf && helperOf[a] == helper && y.apps[a].calls != []
  }

  lemma {:induction false} NextBusyOk(y: System, helperOf: map<nat, nat>, e: Event, helper: int)
    requires CanStep(y, helperOf, e) && BusyOk(y, helperOf, helper) && Served(y, helperOf, e.a)
    ensures BusyOk(Next(y, helperOf, e), helperOf, helper)
  {
    var y' := Next(y, helperOf, e);
    if helper in y'.busy {
      var a := y'.busy[helper];
      if a == e.a {
        AfterCalls(y.apps, e, e.a);
      } else {
        AfterCalls(y.apps, e, a);
      }
    }
  }

  lemma {:induction false} RunBusyOk(ys: seq<System>, helperOf: map<nat, nat>, events: seq<Event>, t: nat, helper: int)
    requires IsRoutedRun(ys, helperOf, events) && t <= |events|
    ensures BusyOk(ys[t], helperOf, helper)
  {
    if t > 0 {
      var y, e := ys[t - 1], events[t - 1];
      RunBusyOk(ys, helperOf, events, t - 1, helper);
      RunServed(ys, helperOf, events, t - 1);
      assert CanStep(y, helperOf, e) && ys[t] == Next(y, helperOf, e);
      NextBusyOk(y, helperOf, e, helper);
    }
  }

  /** BUSY IFF A REPLY IS IN PROGRESS. In every routed run a helper is busy if and only if
      one of the threads routed to it has a reply in progress. */
  lemma {:induction false} BusyIffInProgress(ys: seq<System>, helperOf: map<nat, nat>, events: seq<Event>, t: nat, helper: nat)
    requires IsRoutedRun(ys, helperOf, events) && t <= |events|
    ensures helper in ys[t].busy <==>
            exists a :: a in ys[t].apps && a in helperOf && helperOf[a] == helper && ys[t].apps[a].calls != []
  {
    RunBusyOk(ys, helperOf, events, t, helper);
    RunServed(ys, helperOf, events, t);
    if a :| a in ys[t].apps && a in helperOf && helperOf[a] == helper && ys[t].apps[a].calls != [] {
      assert Served(ys[t], helperOf, a);
    }
  }

  /* ----- Waits return ----- */

  /** In every routed run, once the count of a thread inside a request is complete, its next
      test ends the wait with every expected reply handled. */
  lemma {:induction false} RoutedWaitReturns(ys: seq<System>, helperOf: map<nat, nat>, events: seq<Event>, t: nat, u: nat, a: Tid)
    requires IsRoutedRun(ys, helperOf, events) && t <= u < |events| && a in ys[t].apps
    requires !ys[t].apps[a].phase.Working? && ys[t].apps[a].received == ys[t].apps[a].expected
    requires events[u] == Test(a) && forall i :: t <= i < u ==> events[i] != Test(a)
    ensures a in ys[u + 1].apps
    ensures var p := ys[u + 1].apps[a]; p.phase == Working && p.handled == p.expected && p.calls == []
  {
    RoutingGivesOneHelper(ys, helperOf, events);
    ReturnsAtNextTest(AppsOf(ys), events, t, u, a);
  }

  /** In every routed run a thread inside a request whose helper serves nobody else always
      has a step that brings it nearer, and the step is open to its helper or to itself. */
  lemma {:induction false} RoutedWaitIsNeverStuck(ys: seq<System>, helperOf: map<nat, nat>, events: seq<Event>, t: nat, a: Tid)
      returns (e: Event)
    requires IsRoutedRun(ys, helperOf, events) && t <= |events| && a in ys[t].apps && !ys[t].apps[a].phase.Working?
    requires a in helperOf && forall b :: b in helperOf && helperOf[b] == helperOf[a] ==> b == a
    ensures e.a == a && CanStep(ys[t], helperOf, e)
    ensures ys[t].apps[a].received == ys[t].apps[a].expected ==> e == Test(a)
    ensures ys[t].apps[a].received != ys[t].apps[a].expected ==> Work(AfterApp(ys[t].apps[a], e)) < Work(ys[t].apps[a])
  {
    RoutingGivesOneHelper(ys, helperOf, events);
    e := WaitIsNeverStuck(AppsOf(ys), events, t, a);
    RunBusyOk(ys, helperOf, events, t, helperOf[a]);
    RunServed(ys, helperOf, events, t);
    assert Served(ys[t], helperOf, a);
  }

  /* ----- With the table of the id allocator ----- */

  /** NO LOST WAKE-UP, END TO END. With the table that the id allocator has built after any
      allocations and deallocations, every live worker's replies have a helper to go to, on
      its own node and shared with nobody, and no waiting worker sleeps through the
      completion of its count. */
  lemma {:induction false} AllocatedWorkersAreWoken(nodes: seq<nat>, count: nat, ops: seq<I.Op>,
                                                    ys: seq<System>, events: seq<Event>, t: nat, a: nat)
    requires IsRoutedRun(ys, I.Reached(nodes, count, ops).helperOf, events) && t <= |events|
    requires a in ys[t].apps && ys[t].apps[a].phase.Sleeping?
    ensures var p := ys[t].apps[a]; p.received < p.expected && p.arriving + |p.calls| > 0
    ensures var m := I.Reached(nodes, count, ops);
            (exists n :: a in m.Live(n)) ==>
              && a in m.helperOf && I.NodeOf(m.helperOf[a]) == I.NodeOf(a)
              && forall b :: b in m.helperOf && m.helperOf[b] == m.helperOf[a] ==> b == a
  {
    RoutingGivesOneHelper(ys, I.Reached(nodes, count, ops).helperOf, events);
    SleeperIsIncomplete(AppsOf(ys), events, t, a);
    I.WorkersHaveTheirOwnHelper(nodes, count, ops);
  }

  /** Every waiting live worker can always be brought nearer to the end of its wait by its own
      helper, which the allocator gave to nobody else. */
  lemma {:induction false} AllocatedWorkersCanReturn(nodes: seq<nat>, count: nat, ops: seq<I.Op>,
                                                     ys: seq<System>, events: seq<Event>, t: nat, a: nat) returns (e: Event)
    requires IsRoutedRun(ys, I.Reached(nodes, count, ops).helperOf, events) && t <= |events|
    requires a in ys[t].apps && !ys[t].apps[a].phase.Working? && exists n :: a in I.Reached(nodes, count, ops).Live(n)
    ensures e.a == a && CanStep(ys[t], I.Reached(nodes, count, ops).helperOf, e)
    ensures ys[t].apps[a].received == ys[t].apps[a].expected ==> e == Test(a)
    ensures ys[t].apps[a].received != ys[t].apps[a].expected ==> Work(AfterApp(ys[t].apps[a], e)) < Work(ys[t].apps[a])
  {
    I.WorkersHaveTheirOwnHelper(nodes, count, ops);
    e := RoutedWaitIsNeverStuck(ys, I.Reached(nodes, count, ops).helperOf, events, t, a);
  }
}
