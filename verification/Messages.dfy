/** The messages exchanged by worker and server threads (base/message.hpp).

    The flag of a message and its typed payload are one `Op`: the arrays that the
    source reinterprets from raw bytes are typed sequences here. */
module Messages {

  type Tid = int
  type Key = nat
  type Val = int

  datatype Op =
    | Clock
    | Add(keys: seq<Key>, vals: seq<Val>)
    | Get(keys: seq<Key>)
    | ResetWorkers(tids: seq<Tid>)

  datatype Message = Message(sender: Tid, recver: Tid, modelId: int, op: Op)

  datatype Reply =
    | GetReply(sender: Tid, recver: Tid, modelId: int, keys: seq<Key>, vals: seq<Val>)
    | ResetReply(sender: Tid, recver: Tid)

  /** The Get request that a Get reply answers: the storage swaps the two ends of the
      request and copies its model id and keys into the reply. */
  function RequestOf(r: Reply): (m: Message)
    requires r.GetReply?
  {
    Message(r.recver, r.sender, r.modelId, Get(r.keys))
  }

  /** The replies that the registrations in `h` call for: each is answered once, to its
      sender, whatever its model id. */
  function ResetAnswers(h: seq<Message>): seq<Reply> {
    if h == [] then []
    else
      var m := h[|h| - 1];
      ResetAnswers(h[..|h| - 1]) + if m.op.ResetWorkers? then [ResetReply(m.recver, m.sender)] else []
  }

  /** The registration replies among `rs`, in order. */
  function ResetsIn(rs: seq<Reply>): seq<Reply> {
    if rs == [] then []
    else
      var r := rs[|rs| - 1];
      ResetsIn(rs[..|rs| - 1]) + if r.ResetReply? then [r] else []
  }

  lemma {:induction false} ResetsInSnoc(rs: seq<Reply>, r: Reply)
    ensures ResetsIn(rs + [r]) == ResetsIn(rs) + if r.ResetReply? then [r] else []
  {
    assert (rs + [r])[..|rs|] == rs;
  }

  lemma {:induction false} ResetsInConcat(rs: seq<Reply>, more: seq<Reply>)
    requires forall r :: r in more ==> r.GetReply?
    ensures ResetsIn(rs + more) == ResetsIn(rs)
  {
    if more == [] {
      assert rs + more == rs;
    } else {
      var n := |more| - 1;
      ResetsInConcat(rs, more[..n]);
      ResetsInSnoc(rs + more[..n], more[n]);
      assert rs + more == rs + more[..n] + [more[n]];
      assert more[n] in more;
    }
  }

  lemma {:induction false} ResetAnswersSnoc(h: seq<Message>, n: nat)
    requires n < |h|
    ensures ResetAnswers(h[..n + 1]) ==
            ResetAnswers(h[..n]) + if h[n].op.ResetWorkers? then [ResetReply(h[n].recver, h[n].sender)] else []
  {
    assert h[..n + 1][..n] == h[..n];
  }

  /** What the fatal checks of the storage demand of an Add message. */
  predicate WellFormed(m: Message) {
    m.op.Add? ==> |m.op.keys| == |m.op.vals|
  }
}
