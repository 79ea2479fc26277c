/** MapStorage: accumulating key-value storage of one server shard. */
module KeyValueStorage {
  import opened Messages

  type Store = map<Key, Val>

  /** An absent key reads as 0. */
  function Lookup(m: Store, k: Key): Val {
    if k in m then m[k] else 0
  }

  /** What one Add contributes to key `k`; a key may occur more than once. */
  function Total(keys: seq<Key>, vals: seq<Val>, k: Key): Val
    requires |keys| == |vals|
  {
    if keys == [] then 0
    else
      var n := |keys| - 1;
      Total(keys[..n], vals[..n], k) + if keys[n] == k then vals[n] else 0
  }

  function AddPairs(m: Store, keys: seq<Key>, vals: seq<Val>): Store
    requires |keys| == |vals|
  {
    if keys == [] then m
    else
      var n := |keys| - 1;
      var before := AddPairs(m, keys[..n], vals[..n]);
      before[keys[n] := Lookup(before, keys[n]) + vals[n]]
  }

  /** A read inserts a zero for every key it misses. */
  function Touch(m: Store, keys: seq<Key>): Store {
    if keys == [] then m
    else
      var n := |keys| - 1;
      var before := Touch(m, keys[..n]);
      if keys[n] in before then before else before[keys[n] := 0]
  }

  function ReadAll(m: Store, keys: seq<Key>): (vals: seq<Val>)
    ensures |vals| == |keys|
    ensures forall i :: 0 <= i < |keys| ==> vals[i] == Lookup(m, keys[i])
  {
    if keys == [] then []
    else ReadAll(m, keys[..|keys| - 1]) + [Lookup(m, keys[|keys| - 1])]
  }

  function ReplyTo(req: Message, m: Store): Reply
    requires req.op.Get?
  {
    GetReply(req.recver, req.sender, req.modelId, req.op.keys, ReadAll(m, req.op.keys))
  }

  lemma {:induction false} AddPairsAdds(m: Store, keys: seq<Key>, vals: seq<Val>, k: Key)
    requires |keys| == |vals|
    ensures Lookup(AddPairs(m, keys, vals), k) == Lookup(m, k) + Total(keys, vals, k)
  {
    if keys != [] {
      AddPairsAdds(m, keys[..|keys| - 1], vals[..|keys| - 1], k);
    }
  }

  lemma {:induction false} TouchKeepsLookup(m: Store, keys: seq<Key>, k: Key)
    ensures Lookup(Touch(m, keys), k) == Lookup(m, k)
    ensures k in Touch(m, keys) <==> k in m || k in keys
  {
    if keys != [] {
      TouchKeepsLookup(m, keys[..|keys| - 1], k);
      assert keys == keys[..|keys| - 1] + [keys[|keys| - 1]];
    }
  }

  lemma {:induction false} ReadAllCongruent(m: Store, m': Store, keys: seq<Key>)
    requires forall k :: Lookup(m, k) == Lookup(m', k)
    ensures ReadAll(m, keys) == ReadAll(m', keys)
  {
  }

  class MapStorage {
    var storage: Store

    constructor ()
      ensures storage == map[]
    {
      storage := map[];
    }

    method SubAdd(keys: seq<Key>, vals: seq<Val>)
      requires |keys| == |vals|
      modifies this
      ensures storage == AddPairs(old(storage), keys, vals)
      ensures forall k :: Lookup(storage, k) == Lookup(old(storage), k) + Total(keys, vals, k)
    {
      ghost var was := storage;
      for i := 0 to |keys|
        invariant storage == AddPairs(was, keys[..i], vals[..i])
      {
        if keys[i] !in storage {
          storage := storage[keys[i] := vals[i]];
        } else {
          storage := storage[keys[i] := storage[keys[i]] + vals[i]];
        }
        assert keys[..i + 1][..i] == keys[..i] && vals[..i + 1][..i] == vals[..i];
      }
      assert keys[..|keys|] == keys && vals[..|keys|] == vals;
      forall k ensures Lookup(storage, k) == Lookup(was, k) + Total(keys, vals, k) {
        AddPairsAdds(was, keys, vals, k);
      }
    }

    method SubGet(keys: seq<Key>) returns (vals: seq<Val>)
      modifies this
      ensures vals == ReadAll(old(storage), keys)
      ensures storage == Touch(old(storage), keys)
      ensures forall k :: Lookup(storage, k) == Lookup(old(storage), k)
    {
      ghost var was := storage;
      vals := [];
      for i := 0 to |keys|
        invariant storage == Touch(was, keys[..i])
        invariant vals == ReadAll(was, keys[..i])
      {
        TouchKeepsLookup(was, keys[..i], keys[i]);
        if keys[i] !in storage {
          storage := storage[keys[i] := 0];
        }
        vals := vals + [storage[keys[i]]];
        assert keys[..i + 1][..i] == keys[..i];
      }
      assert keys[..|keys|] == keys;
      forall k ensures Lookup(storage, k) == Lookup(was, k) {
        TouchKeepsLookup(was, keys, k);
      }
    }
  }
}
