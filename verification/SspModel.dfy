/** C++ integer conversions that the SSP controller relies on. */
module MachineInts {
  const TWO32: int := 0x1_0000_0000
  const INT_MAX: int := 0x7FFF_FFFF

  /** int to uint32_t. */
  function ToUint32(x: int): (u: int)
    ensures 0 <= u < TWO32
  {
    x % TWO32
  }

  /** uint32_t back to int, two's complement. */
  function ToInt32(u: int): int {
    if u <= INT_MAX then u else u - TWO32
  }
}

/** SSPModel: the stale-synchronous controller. A Get waits until the slowest worker is at
    most `staleness` clocks behind its sender. */
module SspModel {
  import opened Messages
  import opened MachineInts
  import opened ProgressTracking
  import opened PendingMessages
  import opened KeyValueStorage

  /** `staleness` is the uint32_t field; `replies` is everything pushed to the reply queue. */
  datatype Ssp = Ssp(modelId: int, staleness: int, tracker: Tracker, pending: Pending,
                     storage: Store, replies: seq<Reply>)
  {
    /** The deferral test, an unsigned comparison. */
    predicate Defers(sender: Tid) {
      ToUint32(tracker.GetProgress(sender) - tracker.minClock) > staleness
    }

    /** The clock a deferred Get waits for: unsigned subtraction stored in an int. */
    function BarrierClock(sender: Tid): int {
      ToInt32(ToUint32(tracker.GetProgress(sender) - staleness))
    }

    function Add(m: Message): Ssp
      requires m.op.Add? && WellFormed(m)
    {
      if m.modelId != modelId then this
      else this.(storage := AddPairs(storage, m.op.keys, m.op.vals))
    }

    function Get(m: Message): Ssp
      requires m.op.Get?
    {
      if m.modelId != modelId then this
      else if Defers(m.sender) then
        this.(pending := Push(pending, BarrierClock(m.sender), m))
      else
        this.(storage := Touch(storage, m.op.keys), replies := replies + [ReplyTo(m, storage)])
    }

    /** Feeds popped messages back to their handlers, in order. */
    function Replay(ms: seq<Message>): Ssp
      requires forall m :: m in ms ==> WellFormed(m)
      decreases |ms|
    {
      if ms == [] then this
      else
        var before := Replay(ms[..|ms| - 1]);
        var m := ms[|ms| - 1];
        match m.op
        case Add(_, _) => before.Add(m)
        case Get(_) => before.Get(m)
        case _ => before
    }

    predicate HoldsWellFormed() {
      forall k :: k in pending ==> forall m :: m in pending[k] ==> WellFormed(m)
    }

    function Clock(m: Message): Ssp
      requires HoldsWellFormed()
    {
      if m.modelId != modelId then this
      else
        var changed := tracker.ChangedMinClock(m.sender);
        var advanced := this.(tracker := tracker.Advance(m.sender));
        if changed <= -1 then advanced
        else advanced.(pending := Without(pending, changed)).Replay(HeldAt(pending, changed))
    }

    /** Unlike the other handlers this one does not look at the model id. */
    function ResetWorker(m: Message): Ssp
      requires m.op.ResetWorkers?
    {
      this.(tracker := tracker.Init(m.op.tids), replies := replies + [ResetReply(m.recver, m.sender)])
    }

    function Step(m: Message): Ssp
      requires WellFormed(m) && HoldsWellFormed()
    {
      match m.op
      case Clock => Clock(m)
      case Add(_, _) => Add(m)
      case Get(_) => Get(m)
      case ResetWorkers(_) => ResetWorker(m)
    }
  }

  /** For a registered sender within int range the unsigned test is the integer test and
      the barrier clock is the integer difference. */
  lemma {:induction false} DefersIffTooFarAhead(s: Ssp, w: Tid)
    requires 0 <= s.staleness <= INT_MAX
    requires s.tracker.LowerBound() && s.tracker.Registered(w) && s.tracker.progresses[w] <= INT_MAX
    ensures s.Defers(w) <==> s.tracker.progresses[w] - s.tracker.minClock > s.staleness
    ensures s.BarrierClock(w) == s.tracker.progresses[w] - s.staleness
    ensures s.Defers(w) ==> s.BarrierClock(w) > s.tracker.minClock
  {
    var p := s.tracker.progresses[w];
    assert p - s.tracker.minClock == ToUint32(p - s.tracker.minClock);
    if p < s.staleness {
      assert ToUint32(p - s.staleness) == p - s.staleness + TWO32;
    } else {
      assert ToUint32(p - s.staleness) == p - s.staleness;
    }
  }

  /** An unregistered sender has progress -1. Its unsigned distance is enormous, so once
      the tracker is initialised its Get is always deferred, under a negative clock. */
  lemma {:induction false} UnregisteredIsDeferred(s: Ssp, w: Tid)
    requires 0 <= s.staleness <= INT_MAX && !s.tracker.Registered(w)
    ensures s.BarrierClock(w) == -1 - s.staleness
    ensures 0 <= s.tracker.minClock <= INT_MAX ==> s.Defers(w)
  {
    assert ToUint32(-1 - s.staleness) == TWO32 - 1 - s.staleness;
    if 0 <= s.tracker.minClock <= INT_MAX {
      assert ToUint32(-1 - s.tracker.minClock) == TWO32 - 1 - s.tracker.minClock;
    }
  }

  /** A negative staleness wraps to at least 2^31 and switches deferral off. */
  lemma {:induction false} NegativeStalenessNeverDefers(s: Ssp, configured: int, w: Tid)
    requires -INT_MAX - 1 <= configured < 0 && s.staleness == ToUint32(configured)
    requires s.tracker.LowerBound() && s.tracker.Registered(w) && s.tracker.progresses[w] <= INT_MAX
    ensures !s.Defers(w)
  {
    assert s.staleness == configured + TWO32;
    var d := s.tracker.progresses[w] - s.tracker.minClock;
    assert ToUint32(d) == d;
  }

  /** The controller object. */
  class SSPModel {
    const modelId: int
    const staleness: int
    const progressTracker: ProgressTracker
    const buffer: PendingBuffer
    const storage: MapStorage
    var replies: seq<Reply>

    ghost function Value(): Ssp
      reads this, progressTracker, buffer, storage
    {
      Ssp(modelId, staleness, progressTracker.Value(), buffer.buffer, storage.storage, replies)
    }

    constructor (modelId: int, storage: MapStorage, staleness: int)
      ensures this.modelId == modelId && this.staleness == ToUint32(staleness)
      ensures this.storage == storage && fresh(progressTracker) && fresh(buffer)
      ensures progressTracker.progresses == map[] && buffer.buffer == map[] && replies == []
    {
      this.modelId := modelId;
      this.storage := storage;
      this.staleness := ToUint32(staleness);
      progressTracker := new ProgressTracker();
      buffer := new PendingBuffer();
      replies := [];
    }

    method Add(m: Message)
      requires m.op.Add? && WellFormed(m)
      modifies storage
      ensures Value() == old(Value()).Add(m)
    {
      if m.modelId != modelId {
        return;
      }
      storage.SubAdd(m.op.keys, m.op.vals);
    }

    method Get(m: Message)
      requires m.op.Get?
      modifies this, buffer, storage
      ensures Value() == old(Value()).Get(m)
    {
      if m.modelId != modelId {
        return;
      }
      var workerProgress := progressTracker.GetProgress(m.sender);
      var minClock := progressTracker.minClock;
      if ToUint32(workerProgress - minClock) > staleness {
        buffer.Push(ToInt32(ToUint32(workerProgress - staleness)), m);
      } else {
        var vals := storage.SubGet(m.op.keys);
        replies := replies + [GetReply(m.recver, m.sender, m.modelId, m.op.keys, vals)];
      }
    }

    method Clock(m: Message)
      requires Value().HoldsWellFormed()
      modifies this, progressTracker, buffer, storage
      ensures Value() == old(Value()).Clock(m)
    {
      if m.modelId != modelId {
        return;
      }
      var minClock := progressTracker.AdvanceAndGetChangedMinClock(m.sender);
      if minClock <= -1 {
        return;
      }
      var pendingMsgs := buffer.Pop(minClock);
      ghost var start := Value();
      for i := 0 to |pendingMsgs|
        invariant Value() == start.Replay(pendingMsgs[..i])
      {
        var p := pendingMsgs[i];
        assert pendingMsgs[..i + 1][..i] == pendingMsgs[..i];
        match p.op {
          case Add(_, _) => Add(p);
          case Get(_) => Get(p);
          case _ =>
        }
      }
      assert pendingMsgs[..|pendingMsgs|] == pendingMsgs;
    }

    method ResetWorker(m: Message)
      requires m.op.ResetWorkers?
      modifies this, progressTracker
      ensures Value() == old(Value()).ResetWorker(m)
    {
      progressTracker.Init(m.op.tids);
      replies := replies + [ResetReply(m.recver, m.sender)];
    }
  }
}
