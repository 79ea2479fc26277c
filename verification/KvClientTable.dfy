/** KVClientTable: the worker's view of a table that is sharded over servers, and the proof
    that the shards together are one key-to-sum map. */
module ClientTable {
  import opened Sequences
  import opened Messages
  import opened KeyValueStorage
  import opened Partitioning

  type Servers = map<Tid, Store>
  type Slices = seq<(Tid, KVPairs)>

  /** The worker-side object; `queue` is the sender's work queue. */
  class KVClientTable {
    const appThreadId: Tid
    const modelId: int
    const partition: Partition
    var queue: seq<Message>

    constructor (appThreadId: Tid, modelId: int, partition: Partition)
      ensures this.appThreadId == appThreadId && this.modelId == modelId && this.partition == partition && queue == []
    {
      this.appThreadId, this.modelId, this.partition, queue := appThreadId, modelId, partition, [];
    }

    /** Broadcasts one Clock to every server, whether or not it holds a key of interest. */
    method Clock()
      modifies this
      ensures queue == old(queue) +
                seq(|partition.ids|, i requires 0 <= i < |partition.ids| =>
                  Message(appThreadId, partition.ids[i], modelId, Op.Clock))
    {
      for i := 0 to |partition.ids|
        invariant queue == old(queue) +
                    seq(i, x requires 0 <= x < i <= |partition.ids| =>
                      Message(appThreadId, partition.ids[x], modelId, Op.Clock))
      {
        queue := queue + [Message(appThreadId, partition.ids[i], modelId, Op.Clock)];
      }
    }

    /** One Add message per slice. */
    method Add(keys: seq<Key>, vals: seq<Val>) returns (ghost sliced: Slices)
      requires partition.CoversAll(keys) && |keys| == |vals|
      modifies this
      ensures Lists(sliced, KvParts(partition.Router(), keys, vals))
      ensures |queue| == |old(queue)| + |sliced| && old(queue) <= queue
      ensures forall x :: 0 <= x < |sliced| ==>
                queue[|old(queue)| + x] == Message(appThreadId, sliced[x].0, modelId, Op.Add(sliced[x].1.0, sliced[x].1.1))
    {
      var parts := SliceKVs(partition, keys, vals);
      sliced := parts;
      for i := 0 to |parts|
        invariant |queue| == |old(queue)| + i && old(queue) <= queue
        invariant forall x :: 0 <= x < i ==>
                    queue[|old(queue)| + x] == Message(appThreadId, parts[x].0, modelId, Op.Add(parts[x].1.0, parts[x].1.1))
      {
        queue := queue + [Message(appThreadId, parts[i].0, modelId, Op.Add(parts[i].1.0, parts[i].1.1))];
      }
    }

    /** One Get message per slice; `expected` is the number of replies to wait for. */
    method SendGet(keys: seq<Key>) returns (expected: nat, ghost sliced: seq<(Tid, seq<Key>)>)
      requires partition.CoversAll(keys)
      modifies this
      ensures Lists(sliced, KeyParts(partition.Router(), keys)) && expected == |sliced|
      ensures |queue| == |old(queue)| + expected && old(queue) <= queue
      ensures forall x :: 0 <= x < expected ==>
                queue[|old(queue)| + x] == Message(appThreadId, sliced[x].0, modelId, Op.Get(sliced[x].1))
    {
      var parts := SliceKeys(partition, keys);
      sliced := parts;
      expected := |parts|;
      for i := 0 to |parts|
        invariant |queue| == |old(queue)| + i && old(queue) <= queue
        invariant forall x :: 0 <= x < i ==>
                    queue[|old(queue)| + x] == Message(appThreadId, parts[x].0, modelId, Op.Get(parts[x].1))
      {
        queue := queue + [Message(appThreadId, parts[i].0, modelId, Op.Get(parts[i].1))];
      }
    }
  }

  /* ----- Collecting the replies ----- */

  /** The handler: later values overwrite earlier ones. */
  function Fill(cache: Store, keys: seq<Key>, vals: seq<Val>): Store
    requires |keys| == |vals|
  {
    if keys == [] then cache
    else
      var n := |keys| - 1;
      Fill(cache, keys[..n], vals[..n])[keys[n] := vals[n]]
  }

  function FillAll(replies: seq<KVPairs>): Store
    requires forall r :: r in replies ==> |r.0| == |r.1|
  {
    if replies == [] then map[]
    else
      var r := replies[|replies| - 1];
      assert r in replies;
      Fill(FillAll(replies[..|replies| - 1]), r.0, r.1)
  }

  /** Runs the handler on every reply in the order of arrival, then reads the cache once for
      each requested key. */
  method CollectReplies(keys: seq<Key>, replies: seq<KVPairs>) returns (vals: seq<Val>)
    requires forall r :: r in replies ==> |r.0| == |r.1|
    ensures vals == ReadAll(FillAll(replies), keys)
  {
    var cache: Store := map[];
    for j := 0 to |replies|
      invariant cache == FillAll(replies[..j])
    {
      var (ks, vs) := replies[j];
      assert replies[j] in replies;
      ghost var before := cache;
      for i := 0 to |ks|
        invariant cache == Fill(before, ks[..i], vs[..i])
      {
        cache := cache[ks[i] := vs[i]];
        assert ks[..i + 1][..i] == ks[..i] && vs[..i + 1][..i] == vs[..i];
      }
      assert ks[..|ks|] == ks && vs[..|ks|] == vs;
      assert replies[..j + 1][..j] == replies[..j];
    }
    assert replies[..|replies|] == replies;
    vals := [];
    for i := 0 to |keys|
      invariant vals == ReadAll(cache, keys[..i])
    {
      if keys[i] !in cache {
        vals := vals + [0];
      } else {
        vals := vals + [cache[keys[i]]];
      }
      assert keys[..i + 1][..i] == keys[..i];
    }
    assert keys[..|keys|] == keys;
  }

  lemma {:induction false} FillKeeps(cache: Store, keys: seq<Key>, vals: seq<Val>, k: Key)
    requires |keys| == |vals| && k !in keys
    ensures k in Fill(cache, keys, vals) <==> k in cache
    ensures k in cache ==> Fill(cache, keys, vals)[k] == cache[k]
  {
    if keys != [] {
      var n := |keys| - 1;
      assert keys[n] in keys;
      FillKeeps(cache, keys[..n], vals[..n], k);
    }
  }

  lemma {:induction false} FillLast(cache: Store, keys: seq<Key>, vals: seq<Val>, i: nat)
    requires i < |keys| == |vals| && forall x :: i < x < |keys| ==> keys[x] != keys[i]
    ensures keys[i] in Fill(cache, keys, vals) && Fill(cache, keys, vals)[keys[i]] == vals[i]
  {
    var n := |keys| - 1;
    if i < n {
      FillLast(cache, keys[..n], vals[..n], i);
    }
  }

  /** What the cache holds for a key is what the last reply that lists it says, at its last
      occurrence there. */
  lemma {:induction false} LastReplyWins(replies: seq<KVPairs>, j: nat, i: nat)
    requires (forall r :: r in replies ==> |r.0| == |r.1|) && j < |replies| && i < |replies[j].0|
    requires forall x :: i < x < |replies[j].0| ==> replies[j].0[x] != replies[j].0[i]
    requires forall x :: j < x < |replies| ==> replies[j].0[i] !in replies[x].0
    ensures replies[j] in replies && replies[j].0[i] in FillAll(replies)
    ensures FillAll(replies)[replies[j].0[i]] == replies[j].1[i]
  {
    var n := |replies| - 1;
    assert replies[j] in replies && replies[n] in replies;
    if j == n {
      FillLast(FillAll(replies[..n]), replies[n].0, replies[n].1, i);
    } else {
      LastReplyWins(replies[..n], j, i);
      FillKeeps(FillAll(replies[..n]), replies[n].0, replies[n].1, replies[j].0[i]);
    }
  }

  lemma {:induction false} FillFacts(cache: Store, keys: seq<Key>, vals: seq<Val>, truth: Store)
    requires |keys| == |vals|
    requires forall k :: k in cache ==> cache[k] == Lookup(truth, k)
    requires forall i :: 0 <= i < |keys| ==> vals[i] == Lookup(truth, keys[i])
    ensures var c := Fill(cache, keys, vals);
            && (forall k :: k in c ==> c[k] == Lookup(truth, k))
            && (forall k :: k in c <==> k in cache || k in keys)
  {
    if keys != [] {
      var n := |keys| - 1;
      FillFacts(cache, keys[..n], vals[..n], truth);
      assert keys == keys[..n] + [keys[n]];
    }
  }

  /** If every reply tells the truth about its keys, the cache does too, in whatever order
      the replies came. */
  lemma {:induction false} FillAllFacts(replies: seq<KVPairs>, truth: Store)
    requires forall r :: r in replies ==> |r.0| == |r.1| && forall i :: 0 <= i < |r.0| ==> r.1[i] == Lookup(truth, r.0[i])
    ensures var c := FillAll(replies);
            && (forall k :: k in c ==> c[k] == Lookup(truth, k))
            && (forall k :: k in c <==> exists j :: 0 <= j < |replies| && k in replies[j].0)
  {
    if replies != [] {
      var n := |replies| - 1;
      var rest, r := replies[..n], replies[n];
      assert r in replies;
      FillAllFacts(rest, truth);
      FillFacts(FillAll(rest), r.0, r.1, truth);
      forall k ensures k in FillAll(replies) <==> exists j :: 0 <= j < |replies| && k in replies[j].0 {
        if k in FillAll(rest) {
          var j :| 0 <= j < |rest| && k in rest[j].0;
          assert k in replies[j].0;
        }
        if j :| 0 <= j < |replies| && k in replies[j].0 {
          if j < n {
            assert k in rest[j].0;
          }
        }
      }
    }
  }

  /* ----- Delivering Adds ----- */

  /** The servers after the slices have arrived; one addressed to nobody is lost. */
  ghost function DeliverAll(servers: Servers, ds: Slices): (after: Servers)
    ensures after.Keys == servers.Keys
  {
    if ds == [] then servers
    else
      var before, d := DeliverAll(servers, ds[..|ds| - 1]), ds[|ds| - 1];
      if d.0 in before && |d.1.0| == |d.1.1| then before[d.0 := AddPairs(before[d.0], d.1.0, d.1.1)] else before
  }

  /** What a slice adds to key `k` of server `sid`. */
  function SliceTotal(d: (Tid, KVPairs), sid: Tid, k: Key): Val {
    if d.0 == sid && |d.1.0| == |d.1.1| then Total(d.1.0, d.1.1, k) else 0
  }

  function SumFor(ds: Slices, sid: Tid, k: Key): Val {
    if ds == [] then 0 else SumFor(ds[..|ds| - 1], sid, k) + SliceTotal(ds[|ds| - 1], sid, k)
  }

  lemma {:induction false} DeliverAllAdds(servers: Servers, ds: Slices, sid: Tid, k: Key)
    requires sid in servers
    ensures Lookup(DeliverAll(servers, ds)[sid], k) == Lookup(servers[sid], k) + SumFor(ds, sid, k)
  {
    if ds != [] {
      var rest, d := ds[..|ds| - 1], ds[|ds| - 1];
      DeliverAllAdds(servers, rest, sid, k);
      if d.0 == sid && |d.1.0| == |d.1.1| {
        AddPairsAdds(DeliverAll(servers, rest)[sid], d.1.0, d.1.1, k);
      }
    }
  }

  lemma {:induction false} SumForConcat(a: Slices, b: Slices, sid: Tid, k: Key)
    ensures SumFor(a + b, sid, k) == SumFor(a, sid, k) + SumFor(b, sid, k)
  {
    if b == [] {
      assert a + b == a;
    } else {
      SumForConcat(a, b[..|b| - 1], sid, k);
      assert (a + b)[..|a + b| - 1] == a + b[..|b| - 1];
    }
  }

  lemma {:induction false} SumForInsert(pre: Slices, d: (Tid, KVPairs), post: Slices, sid: Tid, k: Key)
    ensures SumFor(pre + ([d] + post), sid, k) == SumFor(pre + post, sid, k) + SliceTotal(d, sid, k)
  {
    SumForConcat(pre, [d] + post, sid, k);
    SumForConcat([d], post, sid, k);
    SumForConcat(pre, post, sid, k);
    assert SumFor([d], sid, k) == SliceTotal(d, sid, k);
  }

  /** The order of delivery does not matter. */
  lemma {:induction false} SumForPermutation(a: Slices, b: Slices, sid: Tid, k: Key)
    requires multiset(a) == multiset(b)
    ensures SumFor(a, sid, k) == SumFor(b, sid, k)
    decreases |a|
  {
    if a == [] {
      assert |multiset(b)| == 0;
    } else {
      var pre, post := TakeOutFirst(a, b);
      SumForPermutation(a[1..], pre + post, sid, k);
      SumForConcat([a[0]], a[1..], sid, k);
      SumForInsert(pre, a[0], post, sid, k);
      assert SumFor([a[0]], sid, k) == SliceTotal(a[0], sid, k);
    }
  }

  /* ----- One Add call ----- */

  lemma {:induction false} TotalOfOwn(route: Key -> Tid, keys: seq<Key>, vals: seq<Val>, k: Key)
    requires |keys| == |vals|
    ensures Total(KeysOf(route, keys, route(k)), ValsOf(route, keys, vals, route(k)), k) == Total(keys, vals, k)
  {
    if keys != [] {
      var n := |keys| - 1;
      TotalOfOwn(route, keys[..n], vals[..n], k);
      var ks, vs := KeysOf(route, keys[..n], route(k)), ValsOf(route, keys[..n], vals[..n], route(k));
      assert (ks + [keys[n]])[..|ks|] == ks && (vs + [vals[n]])[..|vs|] == vs;
      assert ks + [] == ks && vs + [] == vs;
    }
  }

  lemma {:induction false} TotalOfAbsent(keys: seq<Key>, vals: seq<Val>, k: Key)
    requires |keys| == |vals| && k !in keys
    ensures Total(keys, vals, k) == 0
  {
    if keys != [] {
      assert keys[|keys| - 1] in keys;
      TotalOfAbsent(keys[..|keys| - 1], vals[..|keys| - 1], k);
    }
  }

  lemma {:induction false} SumForAbsent(ds: Slices, sid: Tid, k: Key)
    requires forall x :: 0 <= x < |ds| ==> ds[x].0 != sid
    ensures SumFor(ds, sid, k) == 0
  {
    if ds != [] {
      SumForAbsent(ds[..|ds| - 1], sid, k);
    }
  }

  lemma {:induction false} SumForOnly(ds: Slices, x: nat, k: Key)
    requires x < |ds| && forall y :: 0 <= y < |ds| && y != x ==> ds[y].0 != ds[x].0
    ensures SumFor(ds, ds[x].0, k) == SliceTotal(ds[x], ds[x].0, k)
  {
    var sid := ds[x].0;
    assert ds == ds[..x] + [ds[x]] + ds[x + 1..];
    SumForConcat(ds[..x] + [ds[x]], ds[x + 1..], sid, k);
    SumForConcat(ds[..x], [ds[x]], sid, k);
    SumForAbsent(ds[..x], sid, k);
    SumForAbsent(ds[x + 1..], sid, k);
    assert SumFor([ds[x]], sid, k) == SliceTotal(ds[x], sid, k);
  }

  /** The slices of one Add together add to every key, at its own server, what the whole
      Add would. */
  lemma {:induction false} SlicesAddUp(route: Key -> Tid, keys: seq<Key>, vals: seq<Val>, sliced: Slices, k: Key)
    requires |keys| == |vals| && Lists(sliced, KvParts(route, keys, vals))
    ensures SumFor(sliced, route(k), k) == Total(keys, vals, k)
  {
    var sid, parts := route(k), KvParts(route, keys, vals);
    if sid in parts {
      var x :| 0 <= x < |sliced| && sliced[x] == (sid, parts[sid]);
      SumForOnly(sliced, x, k);
      TotalOfOwn(route, keys, vals, k);
    } else {
      assert forall x :: 0 <= x < |sliced| ==> sliced[x].0 != sid;
      SumForAbsent(sliced, sid, k);
      assert k !in keys;
      TotalOfAbsent(keys, vals, k);
    }
  }

  /* ----- Any number of Add calls ----- */

  /** The unsharded table: every Add applied to one map. */
  function AddAll(calls: seq<KVPairs>): Store
    requires forall c :: c in calls ==> |c.0| == |c.1|
  {
    if calls == [] then map[]
    else
      var c := calls[|calls| - 1];
      assert c in calls;
      AddPairs(AddAll(calls[..|calls| - 1]), c.0, c.1)
  }

  function Concat(parts: seq<Slices>): Slices {
    if parts == [] then [] else Concat(parts[..|parts| - 1]) + parts[|parts| - 1]
  }

  ghost predicate Sliced(route: Key -> Tid, calls: seq<KVPairs>, slicings: seq<Slices>) {
    && |slicings| == |calls|
    && forall x :: 0 <= x < |calls| ==>
         |calls[x].0| == |calls[x].1| && Lists(slicings[x], KvParts(route, calls[x].0, calls[x].1))
  }

  lemma {:induction false} CallsAddUp(route: Key -> Tid, calls: seq<KVPairs>, slicings: seq<Slices>, k: Key)
    requires Sliced(route, calls, slicings)
    ensures SumFor(Concat(slicings), route(k), k) == Lookup(AddAll(calls), k)
  {
    if calls != [] {
      var n := |calls| - 1;
      CallsAddUp(route, calls[..n], slicings[..n], k);
      SumForConcat(Concat(slicings[..n]), slicings[n], route(k), k);
      SlicesAddUp(route, calls[n].0, calls[n].1, slicings[n], k);
      AddPairsAdds(AddAll(calls[..n]), calls[n].0, calls[n].1, k);
    }
  }

  /** Empty storage on every server of the partition. */
  function NewServers(p: Partition): Servers {
    map sid | sid in p.ids :: map[]
  }

  /** ONE MAP, WRITES. After any number of Adds, each sliced in any order and all slices
      delivered in any order, every covered key has at its own server the value it would
      have in a single unsharded map. */
  lemma {:induction false} ShardsHoldOneMap(p: Partition, calls: seq<KVPairs>, slicings: seq<Slices>, delivered: Slices, k: Key)
    requires Sliced(p.Router(), calls, slicings) && multiset(delivered) == multiset(Concat(slicings))
    requires p.Covers(k)
    ensures p.Router()(k) in DeliverAll(NewServers(p), delivered)
    ensures Lookup(DeliverAll(NewServers(p), delivered)[p.Router()(k)], k) == Lookup(AddAll(calls), k)
  {
    var sid := p.Router()(k);
    assert sid in NewServers(p);
    DeliverAllAdds(NewServers(p), delivered, sid, k);
    SumForPermutation(delivered, Concat(slicings), sid, k);
    CallsAddUp(p.Router(), calls, slicings, k);
  }

  /** Every slice's server has replied with the stored values, in any order. */
  ghost predicate Answered(servers: Servers, sliced: seq<(Tid, seq<Key>)>, replies: seq<KVPairs>) {
    && (forall x :: 0 <= x < |sliced| ==>
          sliced[x].0 in servers && (sliced[x].1, ReadAll(servers[sliced[x].0], sliced[x].1)) in replies)
    && (forall r :: r in replies ==>
          exists x :: 0 <= x < |sliced| && sliced[x].0 in servers &&
                      r == (sliced[x].1, ReadAll(servers[sliced[x].0], sliced[x].1)))
  }

  lemma {:induction false} KeysOfFacts(route: Key -> Tid, keys: seq<Key>, sid: Tid, k: Key)
    ensures k in KeysOf(route, keys, sid) <==> k in keys && route(k) == sid
  {
    if keys != [] {
      var n := |keys| - 1;
      KeysOfFacts(route, keys[..n], sid, k);
      assert keys == keys[..n] + [keys[n]];
    }
  }

  lemma {:induction false} SliceReadsTruth(route: Key -> Tid, store: Store, truth: Store, keys: seq<Key>, sid: Tid)
    requires forall k :: k in keys && route(k) == sid ==> Lookup(store, k) == Lookup(truth, k)
    ensures var part := KeysOf(route, keys, sid);
            forall i :: 0 <= i < |part| ==> ReadAll(store, part)[i] == Lookup(truth, part[i])
  {
    var part := KeysOf(route, keys, sid);
    forall i | 0 <= i < |part| ensures Lookup(store, part[i]) == Lookup(truth, part[i]) {
      KeysOfFacts(route, keys, sid, part[i]);
    }
  }

  lemma {:induction false} ReplyReadsTruth(route: Key -> Tid, servers: Servers, truth: Store, keys: seq<Key>,
                                           sliced: seq<(Tid, seq<Key>)>, replies: seq<KVPairs>, r: KVPairs)
    requires Lists(sliced, KeyParts(route, keys)) && Answered(servers, sliced, replies) && r in replies
    requires forall k :: k in keys ==> route(k) in servers && Lookup(servers[route(k)], k) == Lookup(truth, k)
    ensures |r.0| == |r.1| && forall i :: 0 <= i < |r.0| ==> r.1[i] == Lookup(truth, r.0[i])
  {
    var x :| 0 <= x < |sliced| && sliced[x].0 in servers && r == (sliced[x].1, ReadAll(servers[sliced[x].0], sliced[x].1));
    var sid, part := sliced[x].0, sliced[x].1;
    assert sid in KeyParts(route, keys) && part == KeyParts(route, keys)[sid];
    assert part == KeysOf(route, keys, sid);
    SliceReadsTruth(route, servers[sid], truth, keys, sid);
    assert r.0 == part && r.1 == ReadAll(servers[sid], part);
  }

  lemma {:induction false} KeyIsAnswered(route: Key -> Tid, servers: Servers, keys: seq<Key>,
                                         sliced: seq<(Tid, seq<Key>)>, replies: seq<KVPairs>, k: Key)
    requires Lists(sliced, KeyParts(route, keys)) && Answered(servers, sliced, replies) && k in keys
    ensures exists j :: 0 <= j < |replies| && k in replies[j].0
  {
    var i :| 0 <= i < |keys| && keys[i] == k;
    var sid := route(keys[i]);
    assert sid in Owners(route, keys);
    var x :| 0 <= x < |sliced| && sliced[x] == (sid, KeyParts(route, keys)[sid]);
    KeysOfFacts(route, keys, sid, k);
    var r := (sliced[x].1, ReadAll(servers[sliced[x].0], sliced[x].1));
    assert r in replies;
    var j :| 0 <= j < |replies| && replies[j] == r;
    assert k in replies[j].0;
  }

  lemma {:induction false} RepliesReadTruth(route: Key -> Tid, servers: Servers, truth: Store, keys: seq<Key>,
                                            sliced: seq<(Tid, seq<Key>)>, replies: seq<KVPairs>)
    requires Lists(sliced, KeyParts(route, keys)) && Answered(servers, sliced, replies)
    requires forall k :: k in keys ==> route(k) in servers && Lookup(servers[route(k)], k) == Lookup(truth, k)
    ensures forall r :: r in replies ==> |r.0| == |r.1|
    ensures ReadAll(FillAll(replies), keys) == ReadAll(truth, keys)
  {
    forall r | r in replies
      ensures |r.0| == |r.1| && forall i :: 0 <= i < |r.0| ==> r.1[i] == Lookup(truth, r.0[i])
    {
      ReplyReadsTruth(route, servers, truth, keys, sliced, replies, r);
    }
    FillAllFacts(replies, truth);
    forall i | 0 <= i < |keys| ensures Lookup(FillAll(replies), keys[i]) == Lookup(truth, keys[i]) {
      KeyIsAnswered(route, servers, keys, sliced, replies, keys[i]);
    }
  }

  /** ONE MAP, READS. If every requested key has at its own server the value it has in
      `truth`, then whatever the order of the slices and of the replies, a Get returns one
      value per requested key, in request order and with duplicates, equal to reading
      `truth`. */
  lemma {:induction false} GetReadsOneMap(p: Partition, servers: Servers, truth: Store, keys: seq<Key>,
                                          sliced: seq<(Tid, seq<Key>)>, replies: seq<KVPairs>)
    requires Lists(sliced, KeyParts(p.Router(), keys)) && Answered(servers, sliced, replies)
    requires forall k :: k in keys ==>
               p.Router()(k) in servers && Lookup(servers[p.Router()(k)], k) == Lookup(truth, k)
    ensures forall r :: r in replies ==> |r.0| == |r.1|
    ensures ReadAll(FillAll(replies), keys) == ReadAll(truth, keys)
  {
    RepliesReadTruth(p.Router(), servers, truth, keys, sliced, replies);
  }

  /** THE SHARDED TABLE IS ONE MAP. Any sequence of Adds followed by a Get returns, for each
      requested key in request order, the sum of everything added to that key, for hash
      slicing and for ranges that cover the keys, whatever the order of slices, deliveries
      and replies. */
  lemma {:induction false} ShardedTableRefinesOneMap(p: Partition, calls: seq<KVPairs>, slicings: seq<Slices>, delivered: Slices,
                                                     keys: seq<Key>, sliced: seq<(Tid, seq<Key>)>, replies: seq<KVPairs>)
    requires Sliced(p.Router(), calls, slicings) && multiset(delivered) == multiset(Concat(slicings))
    requires p.CoversAll(keys)
    requires Lists(sliced, KeyParts(p.Router(), keys))
    requires Answered(DeliverAll(NewServers(p), delivered), sliced, replies)
    ensures forall r :: r in replies ==> |r.0| == |r.1|
    ensures ReadAll(FillAll(replies), keys) == ReadAll(AddAll(calls), keys)
  {
    forall k | k in keys
      ensures p.Router()(k) in DeliverAll(NewServers(p), delivered)
      ensures Lookup(DeliverAll(NewServers(p), delivered)[p.Router()(k)], k) == Lookup(AddAll(calls), k)
    {
      var i :| 0 <= i < |keys| && keys[i] == k;
      ShardsHoldOneMap(p, calls, slicings, delivered, k);
    }
    GetReadsOneMap(p, DeliverAll(NewServers(p), delivered), AddAll(calls), keys, sliced, replies);
  }
}
