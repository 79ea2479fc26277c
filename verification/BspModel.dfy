/** BSPModel: the bulk-synchronous controller. Adds are buffered until every worker has
    finished the round; a Get from a worker that is ahead is buffered too. */
module BspModel {
  import opened Messages
  import opened ProgressTracking
  import opened KeyValueStorage

  predicate AllAdds(ms: seq<Message>) {
    forall m :: m in ms ==> m.op.Add? && WellFormed(m)
  }

  predicate AllReads(ms: seq<Message>) {
    forall m :: m in ms ==> m.op.Get?
  }

  function Flush(store: Store, adds: seq<Message>): Store
    requires AllAdds(adds)
  {
    if adds == [] then store
    else
      var m := adds[|adds| - 1];
      AddPairs(Flush(store, adds[..|adds| - 1]), m.op.keys, m.op.vals)
  }

  /** Buffered reads touch the storage; their replies are discarded. */
  function Discard(store: Store, gets: seq<Message>): Store
    requires AllReads(gets)
  {
    if gets == [] then store
    else Touch(Discard(store, gets[..|gets| - 1]), gets[|gets| - 1].op.keys)
  }

  datatype Bsp = Bsp(modelId: int, tracker: Tracker, storage: Store,
                     addBuffer: seq<Message>, getBuffer: seq<Message>, replies: seq<Reply>)
  {
    predicate Valid() {
      AllAdds(addBuffer) && AllReads(getBuffer)
    }

    /** Only an Add of the current round is kept. */
    predicate Accepts(m: Message) {
      m.op.Add? && m.modelId == modelId && tracker.GetProgress(m.sender) == tracker.minClock
    }

    /** A Get is answered at once unless its sender is ahead. */
    predicate AnswersNow(m: Message) {
      m.op.Get? && m.modelId == modelId && tracker.GetProgress(m.sender) <= tracker.minClock
    }

    function Step(m: Message): (s: Bsp)
      requires WellFormed(m) && Valid()
      ensures s.Valid()
    {
      match m.op
      case ResetWorkers(tids) =>
        this.(tracker := tracker.Init(tids), replies := replies + [ResetReply(m.recver, m.sender)])
      case Clock =>
        if m.modelId != modelId then this
        else if tracker.ChangedMinClock(m.sender) <= -1 then this.(tracker := tracker.Advance(m.sender))
        else this.(tracker := tracker.Advance(m.sender),
                   storage := Discard(Flush(storage, addBuffer), getBuffer),
                   addBuffer := [], getBuffer := [])
      case Add(_, _) =>
        if Accepts(m) then this.(addBuffer := addBuffer + [m]) else this
      case Get(keys) =>
        if m.modelId != modelId then this
        else if AnswersNow(m) then
          this.(storage := Touch(storage, keys), replies := replies + [ReplyTo(m, storage)])
        else this.(getBuffer := getBuffer + [m])
    }
  }

  class BSPModel {
    const modelId: int
    const progressTracker: ProgressTracker
    const storage: MapStorage
    var addBuffer: seq<Message>
    var getBuffer: seq<Message>
    var replies: seq<Reply>

    ghost function Value(): Bsp
      reads this, progressTracker, storage
    {
      Bsp(modelId, progressTracker.Value(), storage.storage, addBuffer, getBuffer, replies)
    }

    constructor (modelId: int, storage: MapStorage)
      ensures this.modelId == modelId && this.storage == storage && fresh(progressTracker)
      ensures progressTracker.progresses == map[] && addBuffer == [] && getBuffer == [] && replies == []
    {
      this.modelId := modelId;
      this.storage := storage;
      progressTracker := new ProgressTracker();
      addBuffer, getBuffer, replies := [], [], [];
    }

    method Clock(m: Message)
      requires m.op.Clock? && Value().Valid()
      modifies this, progressTracker, storage
      ensures Value() == old(Value()).Step(m)
    {
      if m.modelId != modelId {
        return;
      }
      var minClock := progressTracker.AdvanceAndGetChangedMinClock(m.sender);
      if minClock <= -1 {
        return;
      }
      ghost var was := storage.storage;
      var adds, gets := addBuffer, getBuffer;
      for i := 0 to |adds|
        invariant storage.storage == Flush(was, adds[..i])
        invariant addBuffer == adds && getBuffer == gets && replies == old(replies)
        invariant progressTracker.Value() == old(progressTracker.Value()).Advance(m.sender)
      {
        assert adds[..i + 1][..i] == adds[..i];
        storage.SubAdd(adds[i].op.keys, adds[i].op.vals);
      }
      assert adds[..|adds|] == adds;
      addBuffer := [];
      ghost var flushed := storage.storage;
      for i := 0 to |gets|
        invariant storage.storage == Discard(flushed, gets[..i])
        invariant addBuffer == [] && getBuffer == gets && replies == old(replies)
        invariant progressTracker.Value() == old(progressTracker.Value()).Advance(m.sender)
      {
        assert gets[..i + 1][..i] == gets[..i];
        var _ := storage.SubGet(gets[i].op.keys);
      }
      assert gets[..|gets|] == gets;
      getBuffer := [];
    }

    method Add(m: Message)
      requires m.op.Add? && WellFormed(m) && Value().Valid()
      modifies this
      ensures Value() == old(Value()).Step(m)
    {
      if m.modelId != modelId {
        return;
      }
      var progress := progressTracker.GetProgress(m.sender);
      if progress == progressTracker.minClock {
        addBuffer := addBuffer + [m];
      }
    }

    method Get(m: Message)
      requires m.op.Get? && Value().Valid()
      modifies this, storage
      ensures Value() == old(Value()).Step(m)
    {
      if m.modelId != modelId {
        return;
      }
      var progress := progressTracker.GetProgress(m.sender);
      if progress > progressTracker.minClock {
        getBuffer := getBuffer + [m];
      } else {
        var vals := storage.SubGet(m.op.keys);
        replies := replies + [GetReply(m.recver, m.sender, m.modelId, m.op.keys, vals)];
      }
    }

    method ResetWorker(m: Message)
      requires m.op.ResetWorkers? && Value().Valid()
      modifies this, progressTracker
      ensures Value() == old(Value()).Step(m)
    {
      progressTracker.Init(m.op.tids);
      replies := replies + [ResetReply(m.recver, m.sender)];
    }
  }
}
