/** HashPartitionManager and RangePartitionManager: which server holds a key, and how a
    request is sliced by server. */
module Partitioning {
  import opened Messages

  /** The first range that contains the key, or the number of ranges. */
  function FirstRange(ranges: seq<(nat, nat)>, key: Key): (i: nat)
    ensures i <= |ranges|
    ensures i < |ranges| ==> ranges[i].0 <= key < ranges[i].1
    ensures forall j :: 0 <= j < i ==> !(ranges[j].0 <= key < ranges[j].1)
  {
    if ranges == [] then 0
    else if ranges[0].0 <= key < ranges[0].1 then 0
    else 1 + FirstRange(ranges[1..], key)
  }

  /** Half-open key ranges; `ids` are the server thread ids. */
  datatype Partition =
    | Hash(ids: seq<Tid>)
    | Range(ids: seq<Tid>, ranges: seq<(nat, nat)>)
  {
    /** The index into `ids` that the code computes for a key. */
    function Index(key: Key): nat
      requires Hash? ==> ids != []
    {
      match this
      case Hash(_) => key % |ids|
      case Range(_, _) => FirstRange(ranges, key)
    }

    /** The index is within bounds; the code does not check. For ranges it means that some
        range contains the key, or that there is a server to spare for the others. */
    predicate Covers(key: Key) {
      (Hash? ==> ids != []) && Index(key) < |ids|
    }

    predicate CoversAll(keys: seq<Key>) {
      forall i :: 0 <= i < |keys| ==> Covers(keys[i])
    }

    /** The server of every covered key. */
    function Router(): Key -> Tid {
      (key: Key) => if Covers(key) then ids[Index(key)] else -1
    }
  }

  predicate IsFirst(ranges: seq<(nat, nat)>, key: Key, i: nat) {
    && i < |ranges| && ranges[i].0 <= key < ranges[i].1
    && forall j :: 0 <= j < i ==> !(ranges[j].0 <= key < ranges[j].1)
  }

  predicate InNoRange(ranges: seq<(nat, nat)>, key: Key) {
    forall j :: 0 <= j < |ranges| ==> !(ranges[j].0 <= key < ranges[j].1)
  }

  /** Where a key belongs, in the terms of the two managers: to the server whose position is
      the key modulo their number, or to that of the first range that contains the key. If
      none does, the code goes on to the position after the last range. */
  ghost predicate Owns(p: Partition, sid: Tid, key: Key) {
    match p
    case Hash(ids) => ids != [] && sid == ids[key % |ids|]
    case Range(ids, ranges) =>
      || (exists i :: 0 <= i < |ids| && IsFirst(ranges, key, i) && sid == ids[i])
      || (InNoRange(ranges, key) && |ranges| < |ids| && sid == ids[|ranges|])
  }

  /** The router sends every covered key to the server that owns it. */
  lemma {:induction false} RouterOwns(p: Partition, key: Key)
    requires p.Covers(key)
    ensures Owns(p, p.Router()(key), key)
  {
    if p.Range? {
      var i := FirstRange(p.ranges, key);
      assert p.Router()(key) == p.ids[i];
      assert i < |p.ranges| ==> IsFirst(p.ranges, key, i);
    }
  }

  /** Only one server owns a key. */
  lemma {:induction false} OwnerIsUnique(p: Partition, a: Tid, b: Tid, key: Key)
    requires Owns(p, a, key) && Owns(p, b, key)
    ensures a == b
  {
  }

  lemma {:induction false} SmallModulo(i: nat, n: nat)
    requires i < n
    ensures i % n == i
  {
  }

  /** HASH PLACEMENT. With distinct server ids two keys share a server if and only if they
      are congruent modulo the number of servers, and every server owns keys. */
  lemma {:induction false} SameServerIffCongruent(ids: seq<Tid>, a: Key, b: Key)
    requires ids != [] && forall i, j :: 0 <= i < j < |ids| ==> ids[i] != ids[j]
    ensures Hash(ids).Router()(a) == Hash(ids).Router()(b) <==> a % |ids| == b % |ids|
    ensures forall i :: 0 <= i < |ids| ==> Hash(ids).Router()(i) == ids[i]
  {
    RouterOwns(Hash(ids), a);
    RouterOwns(Hash(ids), b);
    forall i | 0 <= i < |ids| ensures Hash(ids).Router()(i) == ids[i] {
      RouterOwns(Hash(ids), i);
      SmallModulo(i, |ids|);
    }
  }

  /** The keys that belong to server `sid`, in request order, duplicates included. */
  function KeysOf(route: Key -> Tid, keys: seq<Key>, sid: Tid): seq<Key> {
    if keys == [] then []
    else
      var n := |keys| - 1;
      KeysOf(route, keys[..n], sid) + if route(keys[n]) == sid then [keys[n]] else []
  }

  /** The values that go with `KeysOf`. */
  function ValsOf(route: Key -> Tid, keys: seq<Key>, vals: seq<Val>, sid: Tid): (vs: seq<Val>)
    requires |keys| == |vals|
    ensures |vs| == |KeysOf(route, keys, sid)|
  {
    if keys == [] then []
    else
      var n := |keys| - 1;
      ValsOf(route, keys[..n], vals[..n], sid) + if route(keys[n]) == sid then [vals[n]] else []
  }

  /** The servers that own at least one of the keys. */
  function Owners(route: Key -> Tid, keys: seq<Key>): set<Tid> {
    set i | 0 <= i < |keys| :: route(keys[i])
  }

  /** Each owner's part of a read request: exactly its keys, in request order. */
  function KeyParts(route: Key -> Tid, keys: seq<Key>): map<Tid, seq<Key>> {
    map sid | sid in Owners(route, keys) :: KeysOf(route, keys, sid)
  }

  type KVPairs = (seq<Key>, seq<Val>)

  /** Each owner's part of a write request: its keys and their values. */
  function KvParts(route: Key -> Tid, keys: seq<Key>, vals: seq<Val>): map<Tid, KVPairs>
    requires |keys| == |vals|
  {
    map sid | sid in Owners(route, keys) :: (KeysOf(route, keys, sid), ValsOf(route, keys, vals, sid))
  }

  /** `out` lists every entry of `parts` once. The order is left open, as the hash manager
      iterates over an unordered map. */
  ghost predicate Lists<T(!new)>(out: seq<(Tid, T)>, parts: map<Tid, T>) {
    && (forall x, y :: 0 <= x < y < |out| ==> out[x].0 != out[y].0)
    && (forall x :: 0 <= x < |out| ==> out[x].0 in parts && out[x].1 == parts[out[x].0])
    && (forall sid :: sid in parts ==> (sid, parts[sid]) in out)
  }

  /** The search loop of the range manager. */
  method GetServerIdForKey(p: Partition, key: Key) returns (sid: Tid)
    requires p.Range? && p.Covers(key)
    ensures sid == p.Router()(key) && Owns(p, sid, key)
  {
    var i := 0;
    while i < |p.ranges|
      invariant i <= |p.ranges|
      invariant forall j :: 0 <= j < i ==> !(p.ranges[j].0 <= key < p.ranges[j].1)
    {
      if p.ranges[i].0 <= key < p.ranges[i].1 {
        break;
      }
      i := i + 1;
    }
    assert i == FirstRange(p.ranges, key);
    sid := p.ids[i];
  }

  method ServerFor(p: Partition, key: Key) returns (sid: Tid)
    requires p.Covers(key)
    ensures sid == p.Router()(key)
    ensures p.Hash? ==> sid == p.ids[key % |p.ids|]
    ensures p.Range? ==>
              forall i :: 0 <= i < |p.ids| && IsFirst(p.ranges, key, i) ==> sid == p.ids[i]
  {
    if p.Hash? {
      sid := p.ids[key % |p.ids|];
    } else {
      sid := GetServerIdForKey(p, key);
    }
  }

  /* ----- How the parts grow by one key ----- */

  lemma {:induction false} OwnersSnoc(route: Key -> Tid, keys: seq<Key>, key: Key)
    ensures Owners(route, keys + [key]) == Owners(route, keys) + {route(key)}
  {
    var ks := keys + [key];
    forall s | s in Owners(route, keys) ensures s in Owners(route, ks) {
      var x :| 0 <= x < |keys| && s == route(keys[x]);
      assert s == route(ks[x]);
    }
    assert route(ks[|keys|]) == route(key);
  }

  lemma {:induction false} NothingOf(route: Key -> Tid, keys: seq<Key>, sid: Tid)
    ensures KeysOf(route, keys, sid) == [] <==> sid !in Owners(route, keys)
  {
    if keys != [] {
      var n := |keys| - 1;
      NothingOf(route, keys[..n], sid);
      OwnersSnoc(route, keys[..n], keys[n]);
      assert keys[..n] + [keys[n]] == keys;
    }
  }

  function Grow(parts: map<Tid, seq<Key>>, sid: Tid, key: Key): map<Tid, seq<Key>> {
    parts[sid := if sid in parts then parts[sid] + [key] else [key]]
  }

  function GrowKv(parts: map<Tid, KVPairs>, sid: Tid, key: Key, val: Val): map<Tid, KVPairs> {
    parts[sid := if sid in parts then (parts[sid].0 + [key], parts[sid].1 + [val]) else ([key], [val])]
  }

  lemma {:induction false} KeyPartsSnoc(route: Key -> Tid, keys: seq<Key>, key: Key)
    ensures KeyParts(route, keys + [key]) == Grow(KeyParts(route, keys), route(key), key)
  {
    OwnersSnoc(route, keys, key);
    NothingOf(route, keys, route(key));
    assert (keys + [key])[..|keys|] == keys;
    var grown := Grow(KeyParts(route, keys), route(key), key);
    assert grown.Keys == KeyParts(route, keys + [key]).Keys;
    forall s | s in grown ensures grown[s] == KeysOf(route, keys + [key], s) {
      assert KeysOf(route, keys, s) + [] == KeysOf(route, keys, s);
    }
  }

  lemma {:induction false} KvPartsSnoc(route: Key -> Tid, keys: seq<Key>, vals: seq<Val>, key: Key, val: Val)
    requires |keys| == |vals|
    ensures KvParts(route, keys + [key], vals + [val]) == GrowKv(KvParts(route, keys, vals), route(key), key, val)
  {
    OwnersSnoc(route, keys, key);
    NothingOf(route, keys, route(key));
    assert (keys + [key])[..|keys|] == keys && (vals + [val])[..|vals|] == vals;
    var grown := GrowKv(KvParts(route, keys, vals), route(key), key, val);
    assert grown.Keys == KvParts(route, keys + [key], vals + [val]).Keys;
    forall s | s in grown
      ensures grown[s] == (KeysOf(route, keys + [key], s), ValsOf(route, keys + [key], vals + [val], s))
    {
      assert KeysOf(route, keys, s) + [] == KeysOf(route, keys, s);
      assert ValsOf(route, keys, vals, s) + [] == ValsOf(route, keys, vals, s);
      assert KeysOf(route, keys, s) == [] ==> ValsOf(route, keys, vals, s) == [];
      assert grown[s].0 == KeysOf(route, keys + [key], s);
      assert grown[s].1 == ValsOf(route, keys + [key], vals + [val], s);
    }
  }

  /* ----- Slicing ----- */

  /** Lists a map entry by entry. */
  method ListParts<T(!new)>(parts: map<Tid, T>) returns (out: seq<(Tid, T)>)
    ensures Lists(out, parts)
  {
    out := [];
    var rest := parts.Keys;
    while rest != {}
      invariant rest <= parts.Keys
      invariant forall x, y :: 0 <= x < y < |out| ==> out[x].0 != out[y].0
      invariant forall x :: 0 <= x < |out| ==> out[x].0 in parts && out[x].0 !in rest && out[x].1 == parts[out[x].0]
      invariant forall sid :: sid in parts && sid !in rest ==> (sid, parts[sid]) in out
      decreases rest
    {
      assert (forall s :: s !in rest) ==> rest == {};
      var sid :| sid in rest;
      out := out + [(sid, parts[sid])];
      rest := rest - {sid};
    }
  }

  /** The body of the slicing loops: the server's part grows, or starts. */
  method AppendKey(parts: map<Tid, seq<Key>>, sid: Tid, key: Key) returns (grown: map<Tid, seq<Key>>)
    ensures grown == Grow(parts, sid, key)
  {
    if sid in parts {
      grown := parts[sid := parts[sid] + [key]];
    } else {
      grown := parts[sid := [key]];
    }
  }

  method AppendPair(parts: map<Tid, KVPairs>, sid: Tid, key: Key, val: Val) returns (grown: map<Tid, KVPairs>)
    ensures grown == GrowKv(parts, sid, key, val)
  {
    if sid in parts {
      grown := parts[sid := (parts[sid].0 + [key], parts[sid].1 + [val])];
    } else {
      grown := parts[sid := ([key], [val])];
    }
  }

  /** The part of every server, grown pair by pair. */
  method GrowParts(p: Partition, keys: seq<Key>, vals: seq<Val>) returns (parts: map<Tid, KVPairs>)
    requires p.CoversAll(keys) && |keys| == |vals|
    ensures parts == KvParts(p.Router(), keys, vals)
  {
    ghost var route := p.Router();
    parts := map[];
    for i := 0 to |keys|
      invariant parts == KvParts(route, keys[..i], vals[..i])
    {
      ghost var ks, vs := keys[..i], vals[..i];
      var sid := ServerFor(p, keys[i]);
      assert keys[..i + 1] == ks + [keys[i]] && vals[..i + 1] == vs + [vals[i]];
      KvPartsSnoc(route, ks, vs, keys[i], vals[i]);
      parts := AppendPair(parts, sid, keys[i], vals[i]);
    }
    assert keys[..|keys|] == keys && vals[..|keys|] == vals;
  }

  lemma {:induction false} KeysOfRouted(route: Key -> Tid, keys: seq<Key>, sid: Tid, i: nat)
    requires i < |KeysOf(route, keys, sid)|
    ensures KeysOf(route, keys, sid)[i] in keys && route(KeysOf(route, keys, sid)[i]) == sid
  {
    var n := |keys| - 1;
    if i < |KeysOf(route, keys[..n], sid)| {
      KeysOfRouted(route, keys[..n], sid, i);
    }
  }

  lemma {:induction false} PartsAreOwned(p: Partition, keys: seq<Key>, sid: Tid, i: nat)
    requires p.CoversAll(keys) && i < |KeysOf(p.Router(), keys, sid)|
    ensures KeysOf(p.Router(), keys, sid)[i] in keys && Owns(p, sid, KeysOf(p.Router(), keys, sid)[i])
  {
    KeysOfRouted(p.Router(), keys, sid, i);
    var key := KeysOf(p.Router(), keys, sid)[i];
    var x :| 0 <= x < |keys| && keys[x] == key;
    RouterOwns(p, keys[x]);
  }

  /** Slices a write request: a map from server to its part grows key by key and is then
      listed. Every key goes to its owner. */
  method SliceKVs(p: Partition, keys: seq<Key>, vals: seq<Val>) returns (sliced: seq<(Tid, KVPairs)>)
    requires p.CoversAll(keys) && |keys| == |vals|
    ensures Lists(sliced, KvParts(p.Router(), keys, vals))
    ensures forall x, i :: 0 <= x < |sliced| && 0 <= i < |sliced[x].1.0| ==> Owns(p, sliced[x].0, sliced[x].1.0[i])
  {
    var parts := GrowParts(p, keys, vals);
    sliced := ListParts(parts);
    forall x, i | 0 <= x < |sliced| && 0 <= i < |sliced[x].1.0|
      ensures Owns(p, sliced[x].0, sliced[x].1.0[i])
    {
      PartsAreOwned(p, keys, sliced[x].0, i);
    }
  }

  method GrowKeyParts(p: Partition, keys: seq<Key>) returns (parts: map<Tid, seq<Key>>)
    requires p.CoversAll(keys)
    ensures parts == KeyParts(p.Router(), keys)
  {
    ghost var route := p.Router();
    parts := map[];
    for i := 0 to |keys|
      invariant parts == KeyParts(route, keys[..i])
    {
      ghost var ks := keys[..i];
      var sid := ServerFor(p, keys[i]);
      assert keys[..i + 1] == ks + [keys[i]];
      KeyPartsSnoc(route, ks, keys[i]);
      parts := AppendKey(parts, sid, keys[i]);
    }
    assert keys[..|keys|] == keys;
  }

  /** Slices a read request. */
  method SliceKeys(p: Partition, keys: seq<Key>) returns (sliced: seq<(Tid, seq<Key>)>)
    requires p.CoversAll(keys)
    ensures Lists(sliced, KeyParts(p.Router(), keys))
    ensures forall x, i :: 0 <= x < |sliced| && 0 <= i < |sliced[x].1| ==> Owns(p, sliced[x].0, sliced[x].1[i])
  {
    var parts := GrowKeyParts(p, keys);
    sliced := ListParts(parts);
    forall x, i | 0 <= x < |sliced| && 0 <= i < |sliced[x].1|
      ensures Owns(p, sliced[x].0, sliced[x].1[i])
    {
      PartsAreOwned(p, keys, sliced[x].0, i);
    }
  }
}
