/** ProgressTracker: the clock of every worker and a cached minimum. */
module ProgressTracking {
  import opened Messages

  /** The value of a tracker. `minClock` is a cache: nothing in the type ties it to the
      progresses, and the source leaves it unset until the first `Init`. */
  datatype Tracker = Tracker(progresses: map<Tid, int>, minClock: int) {

    predicate Registered(tid: Tid) {
      tid in progresses
    }

    function GetProgress(tid: Tid): int {
      if tid in progresses then progresses[tid] else -1
    }

    function AtMin(): set<Tid> {
      set w | w in progresses && progresses[w] == minClock
    }

    predicate IsUniqueMin(tid: Tid) {
      var p := GetProgress(tid);
      p != -1 && p <= minClock && |AtMin()| == 1
    }

    /** Registers `tids` at progress 0; earlier entries stay. */
    function Init(tids: seq<Tid>): Tracker {
      Tracker(map w | w in progresses.Keys + (set i | 0 <= i < |tids| :: tids[i]) ::
                if w in tids then 0 else progresses[w],
              0)
    }

    function Advance(tid: Tid): Tracker {
      if tid !in progresses then this
      else Tracker(progresses[tid := progresses[tid] + 1],
                   if IsUniqueMin(tid) then minClock + 1 else minClock)
    }

    /** The value `AdvanceAndGetChangedMinClock` returns. */
    function ChangedMinClock(tid: Tid): int {
      if tid in progresses && IsUniqueMin(tid) then minClock + 1 else -1
    }

    /** No worker is behind the cached minimum, and clocks are never negative. */
    ghost predicate LowerBound() {
      forall w :: w in progresses ==> 0 <= minClock <= progresses[w]
    }

    /** The cached minimum is the minimum of all tracked progresses. */
    ghost predicate ExactMin() {
      && LowerBound()
      && (progresses != map[] ==> exists w :: w in progresses && progresses[w] == minClock)
    }
  }

  lemma {:induction false} UniqueMinIsOnly(t: Tracker, tid: Tid, w: Tid)
    requires t.LowerBound() && t.IsUniqueMin(tid)
    requires w in t.progresses && w != tid
    ensures t.progresses[w] > t.minClock
  {
    assert tid in t.AtMin();
    assert |t.AtMin() - {tid}| == 0;
    assert w !in t.AtMin() - {tid};
  }

  lemma {:induction false} NonUniqueMinHasOther(t: Tracker, tid: Tid) returns (w: Tid)
    requires t.ExactMin() && tid in t.progresses && !t.IsUniqueMin(tid)
    ensures w in t.progresses && t.progresses[w] == t.minClock && w != tid
  {
    w :| w in t.progresses && t.progresses[w] == t.minClock;
    if w == tid {
      assert (forall v :: v in t.AtMin() ==> v == tid) ==> t.AtMin() == {tid};
      w :| w in t.AtMin() && w != tid;
    }
  }

  lemma {:induction false} InitKeepsLowerBound(t: Tracker, tids: seq<Tid>)
    requires t.LowerBound()
    ensures t.Init(tids).LowerBound()
  {
  }

  /** An advance keeps the bound, whether or not the cache was exact. */
  lemma {:induction false} AdvanceKeepsLowerBound(t: Tracker, tid: Tid)
    requires t.LowerBound()
    ensures t.Advance(tid).LowerBound()
    ensures t.minClock <= t.Advance(tid).minClock <= t.minClock + 1
  {
    if tid in t.progresses && t.IsUniqueMin(tid) {
      forall w | w in t.progresses && w != tid
        ensures t.progresses[w] > t.minClock
      {
        UniqueMinIsOnly(t, tid, w);
      }
    }
  }

  /** An advance keeps the cache exact, raises the minimum by 0 or 1, reports the new
      minimum exactly when it rose, and it rises exactly when the advancing worker was
      the only one at the minimum. */
  lemma {:induction false} AdvanceIsExact(t: Tracker, tid: Tid)
    requires t.ExactMin() && t.Registered(tid)
    ensures var t' := t.Advance(tid);
            && t'.ExactMin()
            && (t'.minClock == t.minClock || t'.minClock == t.minClock + 1)
            && t.ChangedMinClock(tid) == (if t'.minClock == t.minClock then -1 else t'.minClock)
            && (t'.minClock > t.minClock <==>
                 && t.progresses[tid] == t.minClock
                 && forall w :: w in t.progresses && w != tid ==> t.progresses[w] > t.minClock)
  {
    AdvanceKeepsLowerBound(t, tid);
    var t' := t.Advance(tid);
    if t.IsUniqueMin(tid) {
      assert t'.progresses[tid] == t'.minClock;
      forall w | w in t.progresses && w != tid
        ensures t.progresses[w] > t.minClock
      {
        UniqueMinIsOnly(t, tid, w);
      }
    } else {
      var w := NonUniqueMinHasOther(t, tid);
      assert t'.progresses[w] == t'.minClock;
    }
  }

  /** `Init` leaves the cache exact if and only if it registers someone, or somebody is
      still at clock 0, or nobody is tracked: an empty registration resets the cached
      minimum under workers that have all moved on. */
  lemma {:induction false} InitExactIff(t: Tracker, tids: seq<Tid>)
    requires t.ExactMin()
    ensures t.Init(tids).ExactMin() <==>
            (tids != [] || t.progresses == map[] || t.minClock == 0)
  {
    var t' := t.Init(tids);
    if tids != [] {
      var w := tids[0];
      assert w in t'.progresses && t'.progresses[w] == t'.minClock;
    } else {
      assert t'.progresses == t.progresses;
      if t.progresses != map[] && t.minClock == 0 {
        var w :| w in t.progresses && t.progresses[w] == t.minClock;
        assert t'.progresses[w] == t'.minClock;
      }
    }
  }

  /** One call that changes a tracker. */
  datatype Call = CallInit(tids: seq<Tid>) | CallAdvance(tid: Tid)

  function ApplyAll(t: Tracker, calls: seq<Call>): Tracker {
    if calls == [] then t
    else
      var before := ApplyAll(t, calls[..|calls| - 1]);
      match calls[|calls| - 1]
      case CallInit(tids) => before.Init(tids)
      case CallAdvance(tid) => before.Advance(tid)
  }

  /** A cached minimum that is below every progress never moves again, whoever advances. */
  lemma {:induction false} StaleMinimumIsFrozen(t: Tracker, calls: seq<Call>)
    requires forall w :: w in t.progresses ==> -1 <= t.minClock < t.progresses[w]
    requires forall c :: c in calls ==> c.CallAdvance?
    ensures var t' := ApplyAll(t, calls);
            && t'.minClock == t.minClock && t'.progresses.Keys == t.progresses.Keys
            && forall w :: w in t.progresses ==> t'.progresses[w] >= t.progresses[w]
  {
    if calls != [] {
      var last := calls[|calls| - 1];
      assert last in calls;
      StaleMinimumIsFrozen(t, calls[..|calls| - 1]);
    }
  }

  /** The failing case of `InitExactIff`, whoever is tracked: an empty registration under
      workers that have all moved on leaves the cached minimum at 0 for good, however they
      advance, and it is never the true minimum again. */
  lemma {:induction false} EmptyInitFreezesMinimum(t: Tracker, calls: seq<Call>)
    requires t.ExactMin() && t.progresses != map[] && t.minClock > 0
    requires forall c :: c in calls ==> c.CallAdvance?
    ensures var t' := ApplyAll(t.Init([]), calls);
            t'.minClock == 0 && !t'.ExactMin() && forall w :: w in t'.progresses ==> t'.progresses[w] >= t.minClock
  {
    assert t.Init([]).progresses == t.progresses;
    StaleMinimumIsFrozen(t.Init([]), calls);
    var w :| w in t.progresses && t.progresses[w] == t.minClock;
    assert ApplyAll(t.Init([]), calls).progresses != map[];
  }

  /** After any sequence of non-empty `Init`s and advances on a new tracker the cached
      minimum is the true minimum, whatever value it held before the first `Init`. */
  lemma {:induction false} CachedMinimumIsExact(unset: int, calls: seq<Call>)
    requires forall c :: c in calls && c.CallInit? ==> c.tids != []
    ensures ApplyAll(Tracker(map[], unset), calls).ExactMin()
  {
    if calls != [] {
      var rest, last := calls[..|calls| - 1], calls[|calls| - 1];
      CachedMinimumIsExact(unset, rest);
      var before := ApplyAll(Tracker(map[], unset), rest);
      assert last in calls;
      match last
      case CallInit(tids) => InitExactIff(before, tids);
      case CallAdvance(tid) =>
        if before.Registered(tid) {
          AdvanceIsExact(before, tid);
        }
    }
  }

  /** The tracker object, proved against the functions above. */
  class ProgressTracker {
    var progresses: map<Tid, int>
    var minClock: int

    ghost function Value(): Tracker
      reads this
    {
      Tracker(progresses, minClock)
    }

    /** `minClock` is deliberately left unset. */
    constructor ()
      ensures progresses == map[]
    {
      progresses := map[];
    }

    method Init(tids: seq<Tid>)
      modifies this
      ensures Value() == old(Value()).Init(tids)
    {
      ghost var was := progresses;
      for i := 0 to |tids|
        invariant progresses.Keys == was.Keys + (set j | 0 <= j < i :: tids[j])
        invariant forall w :: w in progresses ==>
                    progresses[w] == if w in tids[..i] then 0 else was[w]
      {
        progresses := progresses[tids[i] := 0];
        assert tids[..i + 1] == tids[..i] + [tids[i]];
      }
      minClock := 0;
      assert tids[..|tids|] == tids;
      ghost var goal := Tracker(was, old(minClock)).Init(tids).progresses;
      assert progresses.Keys == goal.Keys;
      assert forall w :: w in goal ==> progresses[w] == goal[w];
      assert progresses == goal;
    }

    method CheckThreadValid(tid: Tid) returns (valid: bool)
      ensures valid == Value().Registered(tid)
    {
      valid := tid in progresses;
    }

    method GetProgress(tid: Tid) returns (progress: int)
      ensures progress == Value().GetProgress(tid)
      ensures progress == if tid in progresses then progresses[tid] else -1
    {
      var valid := CheckThreadValid(tid);
      progress := if valid then progresses[tid] else -1;
    }

    /** Counts the entries at the minimum, one entry at a time. */
    method IsUniqueMin(tid: Tid) returns (unique: bool)
      ensures unique == Value().IsUniqueMin(tid)
    {
      var progress := GetProgress(tid);
      if progress == -1 || progress > minClock {
        return false;
      }
      var count := 0;
      var rest := progresses.Keys;
      ghost var seen: set<Tid> := {};
      while rest != {}
        invariant rest !! seen && rest + seen == progresses.Keys
        invariant count == |set w | w in seen && progresses[w] == minClock|
        decreases rest
      {
        assert (forall v :: v !in rest) ==> rest == {};
        var w :| w in rest;
        rest := rest - {w};
        ghost var was := set v | v in seen && progresses[v] == minClock;
        seen := seen + {w};
        ghost var now := set v | v in seen && progresses[v] == minClock;
        assert now == if progresses[w] == minClock then was + {w} else was;
        if progresses[w] == minClock {
          count := count + 1;
        }
      }
      assert Value().AtMin() == set w | w in seen && progresses[w] == minClock;
      unique := count == 1;
    }

    method AdvanceAndGetChangedMinClock(tid: Tid) returns (changed: int)
      modifies this
      ensures Value() == old(Value()).Advance(tid)
      ensures changed == old(Value()).ChangedMinClock(tid)
    {
      var valid := CheckThreadValid(tid);
      if !valid {
        return -1;
      }
      changed := -1;
      var unique := IsUniqueMin(tid);
      if unique {
        minClock := minClock + 1;
        changed := minClock;
      }
      progresses := progresses[tid := progresses[tid] + 1];
    }
  }
}
