/** The binary format of BinStream: nested values as bytes, and bytes as nested values. */
module Serialization {
  import opened Sequences

  type Byte = x: int | 0 <= x < 256

  datatype Option<+T> = None | Some(value: T)

  /** What is read or written: an object copied byte by byte, a string, a stream inside the
      stream, a bool vector, a vector (or string of other characters), an ordered or hashed
      map, a pair, an owning pointer. */
  datatype Ty =
    | RawTy(size: nat) | TextTy | SubTy | BitsTy
    | ListTy(elem: Ty) | TableTy(key: Ty, val: Ty) | PairTy(first: Ty, second: Ty) | BoxTy(target: Ty)

  /** A stream is its unread bytes. A map is a map: in which order it is iterated is not part
      of its value. */
  datatype Value =
    | Raw(bytes: seq<Byte>) | Text(chars: seq<Byte>) | Sub(content: seq<Byte>) | Bits(bits: seq<bool>)
    | List(elems: seq<Value>) | Table(entries: map<Value, Value>) | Pair(first: Value, second: Value) | Boxed(target: Value)

  function Height(ty: Ty): nat {
    match ty
    case ListTy(e) => 1 + Height(e)
    case TableTy(k, v) => 2 + Height(k) + Height(v)
    case PairTy(f, s) => 1 + Height(f) + Height(s)
    case BoxTy(t) => 1 + Height(t)
    case _ => 0
  }

  /** The number of values of `size_t`, and of non-negative values of the `int` loop counters. */
  const SIZE_LIMIT: nat := 0x1_0000_0000_0000_0000
  const LOOP_LIMIT: nat := 0x8000_0000

  predicate HasType(ty: Ty, v: Value)
    decreases Height(ty)
  {
    match ty
    case RawTy(n) => v.Raw? && |v.bytes| == n
    case TextTy => v.Text? && |v.chars| < SIZE_LIMIT
    case SubTy => v.Sub? && |v.content| < SIZE_LIMIT
    case BitsTy => v.Bits? && |v.bits| < LOOP_LIMIT
    case ListTy(e) => v.List? && |v.elems| < LOOP_LIMIT && forall i :: 0 <= i < |v.elems| ==> HasType(e, v.elems[i])
    case TableTy(k, w) =>
      && v.Table? && |v.entries| < LOOP_LIMIT
      && forall x :: x in v.entries ==> HasType(k, x) && HasType(w, v.entries[x])
    case PairTy(f, s) => v.Pair? && HasType(f, v.first) && HasType(s, v.second)
    case BoxTy(t) => v.Boxed? && HasType(t, v.target)
  }

  /* ----- Writing ----- */

  /** The `k` bytes of a number, lowest first. */
  function LittleEndian(n: nat, k: nat): (s: seq<Byte>)
    ensures |s| == k
  {
    if k == 0 then [] else [n % 256] + LittleEndian(n / 256, k - 1)
  }

  function SizeBytes(n: nat): seq<Byte> {
    LittleEndian(n, 8)
  }

  function BitBytes(bits: seq<bool>): (s: seq<Byte>)
    ensures |s| == |bits|
  {
    seq(|bits|, i requires 0 <= i < |bits| => if bits[i] then 1 else 0)
  }

  /** `es` lists the entries of `m`, each once, in some order of iteration. */
  predicate Enumerates(es: seq<Value>, m: map<Value, Value>) {
    && |es| == |m|
    && (forall i :: 0 <= i < |es| ==> es[i].Pair? && es[i].first in m && m[es[i].first] == es[i].second)
    && (forall i, j :: 0 <= i < j < |es| ==> es[i].first != es[j].first)
  }

  /** Writing `v` as a `ty` may produce `s`. Every map inside is written in some order of its
      own; apart from that the bytes are determined. */
  ghost predicate Encodes(ty: Ty, v: Value, s: seq<Byte>)
    decreases Height(ty), 0
  {
    match ty
    case RawTy(n) => v == Raw(s) && |s| == n
    case TextTy => v.Text? && |v.chars| < SIZE_LIMIT && s == SizeBytes(|v.chars|) + v.chars
    case SubTy => v.Sub? && |v.content| < SIZE_LIMIT && s == SizeBytes(|v.content|) + v.content
    case BitsTy => v.Bits? && |v.bits| < LOOP_LIMIT && s == SizeBytes(|v.bits|) + BitBytes(v.bits)
    case ListTy(e) =>
      && v.List? && |v.elems| < LOOP_LIMIT && |s| >= 8
      && s[..8] == SizeBytes(|v.elems|) && EncodesAll(e, v.elems, s[8..])
    case TableTy(k, w) =>
      && v.Table? && |v.entries| < LOOP_LIMIT && |s| >= 8
      && s[..8] == SizeBytes(|v.entries|)
      && exists es :: Enumerates(es, v.entries) && EncodesAll(PairTy(k, w), es, s[8..])
    case PairTy(f, g) => v.Pair? && exists n :: 0 <= n <= |s| && Encodes(f, v.first, s[..n]) && Encodes(g, v.second, s[n..])
    case BoxTy(t) => v.Boxed? && Encodes(t, v.target, s)
  }

  ghost predicate EncodesAll(ty: Ty, vs: seq<Value>, s: seq<Byte>)
    decreases Height(ty), |vs| + 1
  {
    if vs == [] then s == []
    else exists n :: 0 <= n <= |s| && Encodes(ty, vs[0], s[..n]) && EncodesAll(ty, vs[1..], s[n..])
  }

  /* ----- Reading ----- */

  function FromLittleEndian(s: seq<Byte>): nat {
    if s == [] then 0 else s[0] + 256 * FromLittleEndian(s[1..])
  }

  /** Reading past the end of the stream is undefined. */
  function Pop(s: seq<Byte>, n: nat): (r: Option<(seq<Byte>, seq<Byte>)>)
    ensures r.Some? ==> s == r.value.0 + r.value.1 && |r.value.0| == n
  {
    if n <= |s| then Some((s[..n], s[n..])) else None
  }

  /** A size, and the bytes after it. */
  function PopSize(s: seq<Byte>): Option<(nat, seq<Byte>)> {
    match Pop(s, 8)
    case None => None
    case Some((b, rest)) => Some((FromLittleEndian(b), rest))
  }

  function PopSized(s: seq<Byte>): Option<(seq<Byte>, seq<Byte>)> {
    match PopSize(s)
    case None => None
    case Some((n, rest)) => Pop(rest, n)
  }

  /** A size that an `int` counter can run up to. */
  function PopCount(s: seq<Byte>): (r: Option<(nat, seq<Byte>)>)
    ensures r.Some? ==> r == PopSize(s) && r.value.0 < LOOP_LIMIT
  {
    match PopSize(s)
    case None => None
    case Some((n, rest)) => if n < LOOP_LIMIT then Some((n, rest)) else None
  }

  /** `map::insert` leaves an existing entry alone. */
  function Insert(m: map<Value, Value>, e: Value): map<Value, Value> {
    if e.Pair? && e.first !in m then m[e.first := e.second] else m
  }

  function InsertAll(es: seq<Value>): map<Value, Value> {
    if es == [] then map[] else Insert(InsertAll(es[..|es| - 1]), es[|es| - 1])
  }

  function Decode(ty: Ty, s: seq<Byte>): Option<(Value, seq<Byte>)>
    decreases Height(ty), 0
  {
    match ty
    case RawTy(n) => (
      match Pop(s, n)
      case None => None
      case Some((b, rest)) => Some((Raw(b), rest)))
    case TextTy => (
      match PopSized(s)
      case None => None
      case Some((b, rest)) => Some((Text(b), rest)))
    case SubTy => (
      match PopSized(s)
      case None => None
      case Some((b, rest)) => Some((Sub(b), rest)))
    case BitsTy => (
      match PopCount(s)
      case None => None
      case Some((n, rest)) =>
        match Pop(rest, n)
        case None => None
        case Some((b, more)) => Some((Bits(seq(|b|, i requires 0 <= i < |b| => b[i] != 0)), more)))
    case ListTy(e) => (
      match PopCount(s)
      case None => None
      case Some((n, rest)) =>
        match DecodeAll(e, n, rest)
        case None => None
        case Some((es, more)) => Some((List(es), more)))
    case TableTy(k, v) => (
      match PopCount(s)
      case None => None
      case Some((n, rest)) =>
        match DecodeAll(PairTy(k, v), n, rest)
        case None => None
        case Some((es, more)) => Some((Table(InsertAll(es)), more)))
    case PairTy(f, g) => (
      match Decode(f, s)
      case None => None
      case Some((x, rest)) =>
        match Decode(g, rest)
        case None => None
        case Some((y, more)) => Some((Pair(x, y), more)))
    case BoxTy(t) => (
      match Decode(t, s)
      case None => None
      case Some((x, rest)) => Some((Boxed(x), rest)))
  }

  /** `n` elements, one after the other. */
  function DecodeAll(ty: Ty, n: nat, s: seq<Byte>): Option<(seq<Value>, seq<Byte>)>
    decreases Height(ty), n + 1
  {
    if n == 0 then Some(([], s))
    else
      match Decode(ty, s)
      case None => None
      case Some((x, rest)) =>
        match DecodeAll(ty, n - 1, rest)
        case None => None
        case Some((xs, more)) => Some(([x] + xs, more))
  }

  /* ----- Sizes ----- */

  function Pow256(k: nat): nat {
    if k == 0 then 1 else 256 * Pow256(k - 1)
  }

  lemma {:induction false} LittleEndianRoundTrip(n: nat, k: nat)
    requires n < Pow256(k)
    ensures FromLittleEndian(LittleEndian(n, k)) == n
  {
    if k > 0 {
      LittleEndianRoundTrip(n / 256, k - 1);
      assert LittleEndian(n, k)[1..] == LittleEndian(n / 256, k - 1);
    }
  }

  lemma {:induction false} Digits(d: Byte, q: nat)
    ensures (d + 256 * q) % 256 == d && (d + 256 * q) / 256 == q
  {
  }

  lemma {:induction false} LittleEndianInverse(s: seq<Byte>)
    ensures FromLittleEndian(s) < Pow256(|s|) && LittleEndian(FromLittleEndian(s), |s|) == s
  {
    if s != [] {
      var d, rest := s[0], s[1..];
      var q := FromLittleEndian(rest);
      LittleEndianInverse(rest);
      Digits(d, q);
      assert FromLittleEndian(s) == d + 256 * q;
      assert LittleEndian(d + 256 * q, |s|) == [d] + LittleEndian(q, |rest|);
      assert s == [d] + rest;
    }
  }

  lemma {:induction false} SizeLimitIs()
    ensures Pow256(8) == SIZE_LIMIT
  {
    assert Pow256(4) == 0x1_0000_0000;
  }

  lemma {:induction false} PopBack(b: seq<Byte>, rest: seq<Byte>)
    ensures Pop(b + rest, |b|) == Some((b, rest))
  {
    assert (b + rest)[..|b|] == b && (b + rest)[|b|..] == rest;
  }

  lemma {:induction false} SizeRoundTrip(n: nat, rest: seq<Byte>)
    requires n < SIZE_LIMIT
    ensures PopSize(SizeBytes(n) + rest) == Some((n, rest))
  {
    SizeLimitIs();
    LittleEndianRoundTrip(n, 8);
    PopBack(SizeBytes(n), rest);
  }

  lemma {:induction false} SizedRoundTrip(b: seq<Byte>, rest: seq<Byte>)
    requires |b| < SIZE_LIMIT
    ensures PopSized(SizeBytes(|b|) + b + rest) == Some((b, rest))
  {
    assert SizeBytes(|b|) + b + rest == SizeBytes(|b|) + (b + rest);
    SizeRoundTrip(|b|, b + rest);
    PopBack(b, rest);
  }

  lemma {:induction false} CountRoundTrip(n: nat, body: seq<Byte>, rest: seq<Byte>)
    requires n < LOOP_LIMIT
    ensures PopCount(SizeBytes(n) + body + rest) == Some((n, body + rest))
  {
    assert SizeBytes(n) + body + rest == SizeBytes(n) + (body + rest);
    SizeRoundTrip(n, body + rest);
  }

  /* ----- Building encodings and taking them apart ----- */

  lemma {:induction false} SplitBack(a: seq<Byte>, b: seq<Byte>)
    ensures (a + b)[..|a|] == a && (a + b)[|a|..] == b
  {
  }

  lemma {:induction false} PairEncodes(f: Ty, g: Ty, x: Value, y: Value, a: seq<Byte>, b: seq<Byte>)
    requires Encodes(f, x, a) && Encodes(g, y, b)
    ensures Encodes(PairTy(f, g), Pair(x, y), a + b)
  {
    SplitBack(a, b);
  }

  lemma {:induction false} ConsEncodes(ty: Ty, x: Value, xs: seq<Value>, a: seq<Byte>, b: seq<Byte>)
    requires Encodes(ty, x, a) && EncodesAll(ty, xs, b)
    ensures EncodesAll(ty, [x] + xs, a + b)
  {
    SplitBack(a, b);
    assert ([x] + xs)[1..] == xs;
  }

  lemma {:induction false} ConsSplits(ty: Ty, vs: seq<Value>, s: seq<Byte>) returns (a: seq<Byte>, b: seq<Byte>)
    requires EncodesAll(ty, vs, s) && vs != []
    ensures s == a + b && Encodes(ty, vs[0], a) && EncodesAll(ty, vs[1..], b)
  {
    var n :| 0 <= n <= |s| && Encodes(ty, vs[0], s[..n]) && EncodesAll(ty, vs[1..], s[n..]);
    a, b := s[..n], s[n..];
  }

  lemma {:induction false} PairSplits(f: Ty, g: Ty, v: Value, s: seq<Byte>) returns (a: seq<Byte>, b: seq<Byte>)
    requires Encodes(PairTy(f, g), v, s)
    ensures v.Pair? && s == a + b && Encodes(f, v.first, a) && Encodes(g, v.second, b)
  {
    var n :| 0 <= n <= |s| && Encodes(f, v.first, s[..n]) && Encodes(g, v.second, s[n..]);
    a, b := s[..n], s[n..];
  }

  lemma {:induction false} SnocEncodes(ty: Ty, vs: seq<Value>, v: Value, s: seq<Byte>, e: seq<Byte>)
    requires EncodesAll(ty, vs, s) && Encodes(ty, v, e)
    ensures EncodesAll(ty, vs + [v], s + e)
    decreases |vs|
  {
    if vs == [] {
      ConsEncodes(ty, v, [], e, []);
      assert [] + [v] == [v] + [] && s + e == e + [];
    } else {
      var x, xs := vs[0], vs[1..];
      var a, b := ConsSplits(ty, vs, s);
      SnocEncodes(ty, xs, v, b, e);
      ConsEncodes(ty, x, xs + [v], a, b + e);
      Regroup(a, b, e);
      assert [x] + (xs + [v]) == vs + [v];
    }
  }

  lemma {:induction false} ListEncodes(e: Ty, es: seq<Value>, body: seq<Byte>)
    requires |es| < LOOP_LIMIT && EncodesAll(e, es, body)
    ensures Encodes(ListTy(e), List(es), SizeBytes(|es|) + body)
  {
    SplitBack(SizeBytes(|es|), body);
  }

  lemma {:induction false} TableEncodes(k: Ty, w: Ty, es: seq<Value>, m: map<Value, Value>, body: seq<Byte>)
    requires |m| < LOOP_LIMIT && Enumerates(es, m) && EncodesAll(PairTy(k, w), es, body)
    ensures Encodes(TableTy(k, w), Table(m), SizeBytes(|m|) + body)
  {
    SplitBack(SizeBytes(|m|), body);
  }

  /* ----- Maps ----- */

  lemma {:induction false} SameSize(a: set<Value>, b: set<Value>)
    requires a <= b && |a| == |b|
    ensures a == b
  {
    assert b == a + (b - a);
  }

  lemma {:induction false} InsertAllFacts(es: seq<Value>, m: map<Value, Value>)
    requires forall i :: 0 <= i < |es| ==> es[i].Pair? && es[i].first in m && m[es[i].first] == es[i].second
    requires forall i, j :: 0 <= i < j < |es| ==> es[i].first != es[j].first
    ensures var r := InsertAll(es);
            && |r| == |es|
            && (forall x :: x in r ==> x in m && r[x] == m[x] && exists i :: 0 <= i < |es| && es[i].first == x)
  {
    if es != [] {
      var n := |es| - 1;
      var rest, e := es[..n], es[n];
      InsertAllFacts(rest, m);
      var was, r := InsertAll(rest), InsertAll(es);
      assert e.first !in was;
      assert r == was[e.first := e.second];
      forall x | x in r ensures exists i :: 0 <= i < |es| && es[i].first == x {
        if x in was {
          var i :| 0 <= i < |rest| && rest[i].first == x;
          assert es[i].first == x;
        } else {
          assert es[n].first == x;
        }
      }
    }
  }

  lemma {:induction false} NotInserted(es: seq<Value>, x: Value)
    requires forall j :: 0 <= j < |es| && es[j].Pair? ==> es[j].first != x
    ensures x !in InsertAll(es)
  {
    if es != [] {
      NotInserted(es[..|es| - 1], x);
    }
  }

  /** Of entries with the same key the first one counts. */
  lemma {:induction false} FirstEntryWins(es: seq<Value>, i: nat)
    requires i < |es| && es[i].Pair?
    requires forall j :: 0 <= j < i && es[j].Pair? ==> es[j].first != es[i].first
    ensures es[i].first in InsertAll(es) && InsertAll(es)[es[i].first] == es[i].second
  {
    var n := |es| - 1;
    if i < n {
      FirstEntryWins(es[..n], i);
    } else {
      NotInserted(es[..n], es[i].first);
    }
  }

  /** Inserting the entries in any order of iteration gives the map back. */
  lemma {:induction false} InsertAllEnumerated(es: seq<Value>, m: map<Value, Value>)
    requires Enumerates(es, m)
    ensures InsertAll(es) == m
  {
    InsertAllFacts(es, m);
    var r := InsertAll(es);
    assert |r.Keys| == |r| && |m.Keys| == |m|;
    SameSize(r.Keys, m.Keys);
  }

  lemma {:induction false} SomeEnumeration(m: map<Value, Value>) returns (es: seq<Value>)
    ensures Enumerates(es, m)
    decreases |m|
  {
    if m == map[] {
      es := [];
    } else {
      assert (forall x :: x !in m) ==> m == map[];
      var x :| x in m;
      var rest := m - {x};
      var tail := SomeEnumeration(rest);
      es := [Pair(x, m[x])] + tail;
      assert m.Keys == rest.Keys + {x};
      assert |m| == |rest| + 1;
    }
  }

  /* ----- Round trip ----- */

  lemma {:induction false} BitsRoundTrip(bits: seq<bool>, rest: seq<Byte>)
    requires |bits| < LOOP_LIMIT
    ensures Decode(BitsTy, SizeBytes(|bits|) + BitBytes(bits) + rest) == Some((Bits(bits), rest))
  {
    var b := BitBytes(bits);
    CountRoundTrip(|bits|, b, rest);
    PopBack(b, rest);
    assert seq(|b|, i requires 0 <= i < |b| => b[i] != 0) == bits;
  }

  lemma {:induction false} DecodeCons(ty: Ty, x: Value, xs: seq<Value>, s: seq<Byte>, more: seq<Byte>, rest: seq<Byte>)
    requires Decode(ty, s) == Some((x, more)) && DecodeAll(ty, |xs|, more) == Some((xs, rest))
    ensures DecodeAll(ty, |xs| + 1, s) == Some(([x] + xs, rest))
  {
  }

  lemma {:induction false} RoundTripAll(ty: Ty, vs: seq<Value>, s: seq<Byte>, rest: seq<Byte>)
    requires EncodesAll(ty, vs, s)
    ensures DecodeAll(ty, |vs|, s + rest) == Some((vs, rest))
    decreases Height(ty), |vs| + 1
  {
    if vs == [] {
      assert s + rest == rest;
    } else {
      var x, xs := vs[0], vs[1..];
      var a, b := ConsSplits(ty, vs, s);
      RoundTripAll(ty, xs, b, rest);
      RoundTrip(ty, x, a, b + rest);
      Regroup(a, b, rest);
      DecodeCons(ty, x, xs, s + rest, b + rest, rest);
      assert vs == [x] + xs;
    }
  }

  lemma {:induction false} DecodePair(f: Ty, g: Ty, x: Value, y: Value, s: seq<Byte>, more: seq<Byte>, rest: seq<Byte>)
    requires Decode(f, s) == Some((x, more)) && Decode(g, more) == Some((y, rest))
    ensures Decode(PairTy(f, g), s) == Some((Pair(x, y), rest))
  {
  }

  lemma {:induction false} PairRoundTrip(f: Ty, g: Ty, v: Value, s: seq<Byte>, rest: seq<Byte>)
    requires Encodes(PairTy(f, g), v, s)
    ensures Decode(PairTy(f, g), s + rest) == Some((v, rest))
    decreases Height(PairTy(f, g)), 0
  {
    var a, b := PairSplits(f, g, v, s);
    RoundTrip(f, v.first, a, b + rest);
    RoundTrip(g, v.second, b, rest);
    Regroup(a, b, rest);
    DecodePair(f, g, v.first, v.second, s + rest, b + rest, rest);
  }

  lemma {:induction false} DecodeList(e: Ty, n: nat, body: seq<Byte>, rest: seq<Byte>, es: seq<Value>)
    requires n < LOOP_LIMIT && DecodeAll(e, n, body + rest) == Some((es, rest))
    ensures Decode(ListTy(e), SizeBytes(n) + body + rest) == Some((List(es), rest))
  {
    CountRoundTrip(n, body, rest);
  }

  lemma {:induction false} DecodeTable(k: Ty, w: Ty, n: nat, body: seq<Byte>, rest: seq<Byte>, es: seq<Value>)
    requires n < LOOP_LIMIT && DecodeAll(PairTy(k, w), n, body + rest) == Some((es, rest))
    ensures Decode(TableTy(k, w), SizeBytes(n) + body + rest) == Some((Table(InsertAll(es)), rest))
  {
    CountRoundTrip(n, body, rest);
  }

  lemma {:induction false} ListRoundTrip(e: Ty, v: Value, s: seq<Byte>, rest: seq<Byte>)
    requires Encodes(ListTy(e), v, s)
    ensures Decode(ListTy(e), s + rest) == Some((v, rest))
    decreases Height(ListTy(e)), 0
  {
    var es, body := v.elems, s[8..];
    assert s == SizeBytes(|es|) + body;
    RoundTripAll(e, es, body, rest);
    DecodeList(e, |es|, body, rest, es);
  }

  /** Whatever the order in which a map was written, reading it gives the same map. */
  lemma {:induction false} TableRoundTrip(k: Ty, w: Ty, v: Value, s: seq<Byte>, rest: seq<Byte>)
    requires Encodes(TableTy(k, w), v, s)
    ensures Decode(TableTy(k, w), s + rest) == Some((v, rest))
    decreases Height(TableTy(k, w)), 0
  {
    var body := s[8..];
    var es :| Enumerates(es, v.entries) && EncodesAll(PairTy(k, w), es, body);
    assert s == SizeBytes(|es|) + body;
    RoundTripAll(PairTy(k, w), es, body, rest);
    DecodeTable(k, w, |es|, body, rest, es);
    InsertAllEnumerated(es, v.entries);
  }

  /** ROUND TRIP. Reading back a value of any nested type, with any bytes after it, yields the
      value and leaves exactly those bytes, in whatever order its maps were written. */
  lemma {:induction false} RoundTrip(ty: Ty, v: Value, s: seq<Byte>, rest: seq<Byte>)
    requires Encodes(ty, v, s)
    ensures Decode(ty, s + rest) == Some((v, rest))
    decreases Height(ty), 1
  {
    match ty
    case RawTy(n) => PopBack(v.bytes, rest);
    case TextTy => SizedRoundTrip(v.chars, rest);
    case SubTy => SizedRoundTrip(v.content, rest);
    case BitsTy => BitsRoundTrip(v.bits, rest);
    case ListTy(e) => ListRoundTrip(e, v, s, rest);
    case TableTy(k, w) => TableRoundTrip(k, w, v, s, rest);
    case PairTy(f, g) => PairRoundTrip(f, g, v, s, rest);
    case BoxTy(t) => RoundTrip(t, v.target, s, rest);
  }

  /** No encoding is the beginning of another one of its type: a stream determines its values. */
  lemma {:induction false} EncodingsArePrefixFree(ty: Ty, v: Value, w: Value, s: seq<Byte>, s': seq<Byte>, r: seq<Byte>, r': seq<Byte>)
    requires Encodes(ty, v, s) && Encodes(ty, w, s') && s + r == s' + r'
    ensures v == w && s == s' && r == r'
  {
    RoundTrip(ty, v, s, r);
    RoundTrip(ty, w, s', r');
    SplitBack(s, r);
    SplitBack(s', r');
  }

  /* ----- What can be written ----- */

  lemma {:induction false} AllEncodable(ty: Ty, vs: seq<Value>) returns (s: seq<Byte>)
    requires forall i :: 0 <= i < |vs| ==> HasType(ty, vs[i])
    ensures EncodesAll(ty, vs, s)
    decreases Height(ty), |vs| + 1
  {
    if vs == [] {
      s := [];
    } else {
      var a := Encodable(ty, vs[0]);
      var b := AllEncodable(ty, vs[1..]);
      ConsEncodes(ty, vs[0], vs[1..], a, b);
      assert [vs[0]] + vs[1..] == vs;
      s := a + b;
    }
  }

  /** Every value of a type can be written as that type. */
  lemma {:induction false} Encodable(ty: Ty, v: Value) returns (s: seq<Byte>)
    requires HasType(ty, v)
    ensures Encodes(ty, v, s)
    decreases Height(ty), 0
  {
    match ty
    case RawTy(n) => s := v.bytes;
    case TextTy => s := SizeBytes(|v.chars|) + v.chars;
    case SubTy => s := SizeBytes(|v.content|) + v.content;
    case BitsTy => s := SizeBytes(|v.bits|) + BitBytes(v.bits);
    case ListTy(e) =>
      var body := AllEncodable(e, v.elems);
      ListEncodes(e, v.elems, body);
      s := SizeBytes(|v.elems|) + body;
    case TableTy(k, w) =>
      var es := SomeEnumeration(v.entries);
      var body := AllEncodable(PairTy(k, w), es);
      TableEncodes(k, w, es, v.entries, body);
      s := SizeBytes(|v.entries|) + body;
    case PairTy(f, g) =>
      var a := Encodable(f, v.first);
      var b := Encodable(g, v.second);
      PairEncodes(f, g, v.first, v.second, a, b);
      s := a + b;
    case BoxTy(t) =>
      s := Encodable(t, v.target);
  }

  lemma {:induction false} EncodedAllHaveType(ty: Ty, vs: seq<Value>, s: seq<Byte>)
    requires EncodesAll(ty, vs, s)
    ensures forall i :: 0 <= i < |vs| ==> HasType(ty, vs[i])
    decreases Height(ty), |vs| + 1
  {
    if vs != [] {
      var a, b := ConsSplits(ty, vs, s);
      EncodedHasType(ty, vs[0], a);
      EncodedAllHaveType(ty, vs[1..], b);
      assert forall i :: 0 < i < |vs| ==> vs[i] == vs[1..][i - 1];
    }
  }

  lemma {:induction false} EncodedTableHasType(k: Ty, w: Ty, v: Value, s: seq<Byte>)
    requires Encodes(TableTy(k, w), v, s)
    ensures HasType(TableTy(k, w), v)
    decreases Height(TableTy(k, w)), 0
  {
    var m := v.entries;
    var es: seq<Value> :| Enumerates(es, m) && EncodesAll(PairTy(k, w), es, s[8..]);
    EncodedAllHaveType(PairTy(k, w), es, s[8..]);
    InsertAllFacts(es, m);
    InsertAllEnumerated(es, m);
    forall x | x in m ensures HasType(k, x) && HasType(w, m[x]) {
      var i :| 0 <= i < |es| && es[i].first == x;
      assert HasType(PairTy(k, w), es[i]);
    }
  }

  lemma {:induction false} EncodedHasType(ty: Ty, v: Value, s: seq<Byte>)
    requires Encodes(ty, v, s)
    ensures HasType(ty, v)
    decreases Height(ty), 1
  {
    match ty
    case ListTy(e) => EncodedAllHaveType(e, v.elems, s[8..]);
    case TableTy(k, w) => EncodedTableHasType(k, w, v, s);
    case PairTy(f, g) =>
      var a, b := PairSplits(f, g, v, s);
      EncodedHasType(f, v.first, a);
      EncodedHasType(g, v.second, b);
    case BoxTy(t) => EncodedHasType(t, v.target, s);
    case _ =>
  }

  /** The round trip is about all values of the type, and about nothing else. */
  lemma {:induction false} EncodableIffHasType(ty: Ty, v: Value)
    ensures HasType(ty, v) <==> exists s :: Encodes(ty, v, s)
  {
    if HasType(ty, v) {
      var s := Encodable(ty, v);
      assert Encodes(ty, v, s);
    } else if exists s :: Encodes(ty, v, s) {
      var s :| Encodes(ty, v, s);
      EncodedHasType(ty, v, s);
    }
  }

  lemma {:induction false} WrittenAndReadBack(ty: Ty, v: Value)
    ensures (exists s :: Encodes(ty, v, s) && Decode(ty, s) == Some((v, []))) <==> HasType(ty, v)
  {
    if HasType(ty, v) {
      var s := Encodable(ty, v);
      RoundTrip(ty, v, s, []);
      assert s + [] == s;
    } else if exists s :: Encodes(ty, v, s) {
      var s :| Encodes(ty, v, s);
      EncodedHasType(ty, v, s);
    }
  }

  /** In numbers: a list is written, and read back, if and only if it has fewer than 2^31
      elements and every element has its type; a string if and only if it has fewer than
      2^64 bytes. */
  lemma {:induction false} LimitsInNumbers(e: Ty, es: seq<Value>, chars: seq<Byte>)
    ensures (exists s :: Encodes(ListTy(e), List(es), s) && Decode(ListTy(e), s) == Some((List(es), []))) <==>
            |es| < 2147483648 && forall i :: 0 <= i < |es| ==> HasType(e, es[i])
    ensures (exists s :: Encodes(TextTy, Text(chars), s) && Decode(TextTy, s) == Some((Text(chars), []))) <==>
            |chars| < 18446744073709551616
  {
    WrittenAndReadBack(ListTy(e), List(es));
    WrittenAndReadBack(TextTy, Text(chars));
  }

  lemma {:induction false} FourBytes(b: seq<Byte>)
    requires |b| >= 4
    ensures FromLittleEndian(b) ==
            b[0] + 0x100 * (b[1] as int) + 0x1_0000 * (b[2] as int) + 0x100_0000 * (b[3] as int) + 0x1_0000_0000 * FromLittleEndian(b[4..])
  {
    assert b[1..][1..] == b[2..] && b[2..][1..] == b[3..] && b[3..][1..] == b[4..];
    assert FromLittleEndian(b[1..]) == b[1] + 0x100 * FromLittleEndian(b[2..]);
    assert FromLittleEndian(b[2..]) == b[2] + 0x100 * FromLittleEndian(b[3..]);
    assert FromLittleEndian(b[3..]) == b[3] + 0x100 * FromLittleEndian(b[4..]);
  }

  /** A size is written in 8 bytes, lowest first. */
  lemma {:induction false} SizeInBytes(n: nat)
    requires n < SIZE_LIMIT
    ensures var b := SizeBytes(n);
            && |b| == 8
            && n == b[0] + 0x100 * (b[1] as int) + 0x1_0000 * (b[2] as int) + 0x100_0000 * (b[3] as int)
                  + 0x1_0000_0000 * ((b[4] as int) + 0x100 * (b[5] as int) + 0x1_0000 * (b[6] as int) + 0x100_0000 * (b[7] as int))
  {
    var b := SizeBytes(n);
    SizeLimitIs();
    LittleEndianRoundTrip(n, 8);
    FourBytes(b);
    FourBytes(b[4..]);
    assert b[4..][4..] == [];
  }

  /* ----- The other way round ----- */

  /** Types without bool vectors, of which any nonzero byte reads as true, and without maps,
      which drop repeated keys. */
  predicate Lossless(ty: Ty) {
    match ty
    case BitsTy => false
    case TableTy(_, _) => false
    case ListTy(e) => Lossless(e)
    case PairTy(f, g) => Lossless(f) && Lossless(g)
    case BoxTy(t) => Lossless(t)
    case _ => true
  }

  /** If `s` can be read at all, then what was read of it is an encoding of the value. */
  ghost predicate Recovers(ty: Ty, s: seq<Byte>) {
    match Decode(ty, s)
    case None => true
    case Some((v, rest)) => exists e :: Encodes(ty, v, e) && s == e + rest
  }

  lemma {:induction false} RecoveredIsEncoded(ty: Ty, s: seq<Byte>, v: Value)
    requires Decode(ty, s) == Some((v, [])) && Recovers(ty, s)
    ensures Encodes(ty, v, s)
  {
    var e :| Encodes(ty, v, e) && s == e + [];
    assert e + [] == e;
  }

  lemma {:induction false} SizeInverse(s: seq<Byte>)
    requires PopSize(s).Some?
    ensures var (n, rest) := PopSize(s).value; n < SIZE_LIMIT && s == SizeBytes(n) + rest
  {
    SizeLimitIs();
    LittleEndianInverse(s[..8]);
  }

  lemma {:induction false} SizedInverse(s: seq<Byte>)
    requires PopSized(s).Some?
    ensures var (b, rest) := PopSized(s).value; |b| < SIZE_LIMIT && s == SizeBytes(|b|) + b + rest
  {
    SizeInverse(s);
    var (n, more) := PopSize(s).value;
    var (b, rest) := PopSized(s).value;
    assert s == SizeBytes(n) + (b + rest);
  }

  lemma {:induction false} InverseCons(ty: Ty, x: Value, xs: seq<Value>, s: seq<Byte>, more: seq<Byte>, rest: seq<Byte>,
                                       a: seq<Byte>, b: seq<Byte>)
    requires Decode(ty, s) == Some((x, more)) && Encodes(ty, x, a) && s == a + more
    requires DecodeAll(ty, |xs|, more) == Some((xs, rest)) && EncodesAll(ty, xs, b) && more == b + rest
    ensures DecodeAll(ty, |xs| + 1, s) == Some(([x] + xs, rest))
    ensures EncodesAll(ty, [x] + xs, a + b) && s == a + b + rest
  {
    DecodeCons(ty, x, xs, s, more, rest);
    ConsEncodes(ty, x, xs, a, b);
    Regroup(a, b, rest);
  }

  lemma {:induction false} InverseAll(ty: Ty, n: nat, s: seq<Byte>) returns (e: seq<Byte>)
    requires Lossless(ty) && DecodeAll(ty, n, s).Some?
    ensures var (vs, rest) := DecodeAll(ty, n, s).value; |vs| == n && EncodesAll(ty, vs, e) && s == e + rest
    decreases Height(ty), n + 1
  {
    if n == 0 {
      e := [];
    } else {
      var a := Inverse(ty, s);
      var (x, more) := Decode(ty, s).value;
      var b := InverseAll(ty, n - 1, more);
      var (xs, rest) := DecodeAll(ty, n - 1, more).value;
      InverseCons(ty, x, xs, s, more, rest, a, b);
      e := a + b;
    }
  }

  lemma {:induction false} InversePair(f: Ty, g: Ty, s: seq<Byte>) returns (e: seq<Byte>)
    requires Lossless(f) && Lossless(g) && Decode(PairTy(f, g), s).Some?
    ensures var (v, rest) := Decode(PairTy(f, g), s).value; Encodes(PairTy(f, g), v, e) && s == e + rest
    decreases Height(PairTy(f, g)), 0
  {
    var a := Inverse(f, s);
    var (x, more) := Decode(f, s).value;
    var b := Inverse(g, more);
    var (y, rest) := Decode(g, more).value;
    PairEncodes(f, g, x, y, a, b);
    Regroup(a, b, rest);
    e := a + b;
  }

  lemma {:induction false} InverseList(t: Ty, s: seq<Byte>) returns (e: seq<Byte>)
    requires Lossless(t) && Decode(ListTy(t), s).Some?
    ensures var (v, rest) := Decode(ListTy(t), s).value; Encodes(ListTy(t), v, e) && s == e + rest
    decreases Height(ListTy(t)), 0
  {
    SizeInverse(s);
    var (n, body) := PopCount(s).value;
    var b := InverseAll(t, n, body);
    var (es, rest) := DecodeAll(t, n, body).value;
    ListEncodes(t, es, b);
    Regroup(SizeBytes(n), b, rest);
    e := SizeBytes(n) + b;
  }

  lemma {:induction false} Inverse(ty: Ty, s: seq<Byte>) returns (e: seq<Byte>)
    requires Lossless(ty) && Decode(ty, s).Some?
    ensures var (v, rest) := Decode(ty, s).value; Encodes(ty, v, e) && s == e + rest
    decreases Height(ty), 1
  {
    match ty
    case RawTy(n) =>
      e := Decode(ty, s).value.0.bytes;
    case TextTy =>
      SizedInverse(s);
      var b := PopSized(s).value.0;
      e := SizeBytes(|b|) + b;
    case SubTy =>
      SizedInverse(s);
      var b := PopSized(s).value.0;
      e := SizeBytes(|b|) + b;
    case ListTy(t) =>
      e := InverseList(t, s);
    case PairTy(f, g) =>
      e := InversePair(f, g, s);
    case BoxTy(t) =>
      e := Inverse(t, s);
  }

  /** Some value of each type. */
  function Default(ty: Ty): (v: Value)
    ensures HasType(ty, v)
  {
    match ty
    case RawTy(n) => Raw(seq(n, _ => 0))
    case TextTy => Text([])
    case SubTy => Sub([])
    case BitsTy => Bits([])
    case ListTy(_) => List([])
    case TableTy(_, _) => Table(map[])
    case PairTy(f, g) => Pair(Default(f), Default(g))
    case BoxTy(t) => Boxed(Default(t))
  }

  /** `s` reads as `v` without being an encoding of it, whatever follows. */
  ghost predicate Misread(ty: Ty, s: seq<Byte>, v: Value) {
    (forall rest :: Decode(ty, s + rest) == Some((v, rest))) && !Encodes(ty, v, s)
  }

  lemma {:induction false} SizeBytesDiffer()
    ensures SizeBytes(1) != SizeBytes(2)
  {
    SizeRoundTrip(1, []);
    SizeRoundTrip(2, []);
  }

  /** The byte 2 reads as true, which is written as 1. */
  lemma {:induction false} MisreadBits()
    ensures Misread(BitsTy, SizeBytes(1) + [2], Bits([true]))
  {
    var b: seq<Byte>, v := [2], Bits([true]);
    var s := SizeBytes(1) + b;
    forall rest ensures Decode(BitsTy, s + rest) == Some((v, rest)) {
      CountRoundTrip(1, b, rest);
      PopBack(b, rest);
      assert seq(1, i requires 0 <= i < 1 => b[i] != 0) == [true];
    }
    assert BitBytes([true]) == [1];
    assert s[8] == 2;
  }

  lemma {:induction false} InsertTwice(x: Value, y: Value)
    ensures InsertAll([Pair(x, y), Pair(x, y)]) == map[x := y]
  {
    var e := Pair(x, y);
    var one, two := [e], [e, e];
    assert one[..0] == [] && two[..1] == one;
    assert InsertAll(one) == Insert(map[], e) == map[x := y];
    assert InsertAll(two) == Insert(InsertAll(one), e);
  }

  lemma {:induction false} TwiceEncodes(ty: Ty, e: Value, a: seq<Byte>)
    requires Encodes(ty, e, a)
    ensures EncodesAll(ty, [e, e], a + a)
  {
    ConsEncodes(ty, e, [], a, []);
    assert [e] + [] == [e] && a + [] == a;
    ConsEncodes(ty, e, [e], a, a);
    assert [e] + [e] == [e, e];
  }

  lemma {:induction false} DecodeTwice(k: Ty, w: Ty, x: Value, y: Value, a: seq<Byte>, rest: seq<Byte>)
    requires Encodes(PairTy(k, w), Pair(x, y), a)
    ensures Decode(TableTy(k, w), SizeBytes(2) + (a + a) + rest) == Some((Table(map[x := y]), rest))
  {
    var e, body := Pair(x, y), a + a;
    var es := [e, e];
    TwiceEncodes(PairTy(k, w), e, a);
    RoundTripAll(PairTy(k, w), es, body, rest);
    DecodeTable(k, w, |es|, body, rest, es);
    InsertTwice(x, y);
  }

  /** A key that occurs twice is kept once. */
  lemma {:induction false} MisreadTable(k: Ty, w: Ty, x: Value, y: Value, a: seq<Byte>)
    requires Encodes(PairTy(k, w), Pair(x, y), a)
    ensures Misread(TableTy(k, w), SizeBytes(2) + (a + a), Table(map[x := y]))
  {
    forall rest ensures Decode(TableTy(k, w), SizeBytes(2) + (a + a) + rest) == Some((Table(map[x := y]), rest)) {
      DecodeTwice(k, w, x, y, a, rest);
    }
    SizeBytesDiffer();
    SplitBack(SizeBytes(2), a + a);
  }

  lemma {:induction false} SingleEncodes(t: Ty, v: Value, s: seq<Byte>)
    requires EncodesAll(t, [v], s)
    ensures Encodes(t, v, s)
  {
    var a, b := ConsSplits(t, [v], s);
    assert a + [] == a;
  }

  lemma {:induction false} MisreadList(t: Ty, s: seq<Byte>, v: Value)
    requires Misread(t, s, v)
    ensures Misread(ListTy(t), SizeBytes(1) + s, List([v]))
  {
    var one := [v];
    forall rest ensures Decode(ListTy(t), SizeBytes(1) + s + rest) == Some((List(one), rest)) {
      DecodeCons(t, v, [], s + rest, rest, rest);
      assert [v] + [] == one;
      DecodeList(t, |one|, s, rest, one);
    }
    SplitBack(SizeBytes(1), s);
    if EncodesAll(t, [v], s) {
      SingleEncodes(t, v, s);
    }
  }

  lemma {:induction false} MisreadFirst(f: Ty, g: Ty, s: seq<Byte>, v: Value) returns (s': seq<Byte>, v': Value)
    requires Misread(f, s, v)
    ensures Misread(PairTy(f, g), s', v')
  {
    var y := Default(g);
    var e := Encodable(g, y);
    s', v' := s + e, Pair(v, y);
    forall rest ensures Decode(PairTy(f, g), s' + rest) == Some((v', rest)) {
      Regroup(s, e, rest);
      RoundTrip(g, y, e, rest);
      DecodePair(f, g, v, y, s' + rest, e + rest, rest);
    }
    if Encodes(PairTy(f, g), v', s') {
      var a, b := PairSplits(f, g, v', s');
      RoundTrip(f, v, a, b);
      SplitBack(s, e);
      SplitBack(a, b);
    }
  }

  lemma {:induction false} MisreadSecond(f: Ty, g: Ty, s: seq<Byte>, v: Value) returns (s': seq<Byte>, v': Value)
    requires Misread(g, s, v)
    ensures Misread(PairTy(f, g), s', v')
  {
    var x := Default(f);
    var e := Encodable(f, x);
    s', v' := e + s, Pair(x, v);
    forall rest ensures Decode(PairTy(f, g), s' + rest) == Some((v', rest)) {
      Regroup(e, s, rest);
      RoundTrip(f, x, e, s + rest);
      DecodePair(f, g, x, v, s' + rest, s + rest, rest);
    }
    if Encodes(PairTy(f, g), v', s') {
      var a, b := PairSplits(f, g, v', s');
      RoundTrip(f, x, a, b);
      RoundTrip(f, x, e, s);
    }
  }

  lemma {:induction false} MisreadBox(t: Ty, s: seq<Byte>, v: Value)
    requires Misread(t, s, v)
    ensures Misread(BoxTy(t), s, Boxed(v))
  {
    forall rest ensures Decode(BoxTy(t), s + rest) == Some((Boxed(v), rest)) {
      assert Decode(t, s + rest) == Some((v, rest));
    }
  }

  /** Every lossy type, however deep the loss, has a stream that is misread. */
  lemma {:induction false} LossyIsMisread(ty: Ty) returns (s: seq<Byte>, v: Value)
    requires !Lossless(ty)
    ensures Misread(ty, s, v)
  {
    match ty
    case BitsTy =>
      MisreadBits();
      s, v := SizeBytes(1) + [2], Bits([true]);
    case TableTy(k, w) =>
      var x, y := Default(k), Default(w);
      var a := Encodable(PairTy(k, w), Pair(x, y));
      MisreadTable(k, w, x, y, a);
      s, v := SizeBytes(2) + (a + a), Table(map[x := y]);
    case ListTy(t) =>
      s, v := LossyIsMisread(t);
      MisreadList(t, s, v);
      s, v := SizeBytes(1) + s, List([v]);
    case PairTy(f, g) =>
      if Lossless(f) {
        s, v := LossyIsMisread(g);
        s, v := MisreadSecond(f, g, s, v);
      } else {
        s, v := LossyIsMisread(f);
        s, v := MisreadFirst(f, g, s, v);
      }
    case BoxTy(t) =>
      s, v := LossyIsMisread(t);
      MisreadBox(t, s, v);
      v := Boxed(v);
  }

  /** EXACT CONDITION. Whatever bytes are read as a type are an encoding of the value read, so
      that reading and writing are inverse to each other, if and only if no bool vector and
      no map occurs in the type. */
  lemma {:induction false} RecoversIffLossless(ty: Ty)
    ensures (forall s :: Recovers(ty, s)) <==> Lossless(ty)
  {
    if Lossless(ty) {
      forall s ensures Recovers(ty, s) {
        if Decode(ty, s).Some? {
          var e := Inverse(ty, s);
        }
      }
    } else {
      var s, v := LossyIsMisread(ty);
      assert s + [] == s;
      assert Decode(ty, s + []) == Some((v, []));
      if Recovers(ty, s) {
        RecoveredIsEncoded(ty, s, v);
      }
    }
  }
}
