/** BinStream: nested values written to a byte stream and read back. */
module BinStreams {
  import opened Sequences
  import opened Serialization

  /** `es` lists the entries of `m` whose keys are not in `rest`. */
  ghost predicate EnumeratesAllBut(es: seq<Value>, m: map<Value, Value>, rest: set<Value>) {
    && |es| + |rest| == |m|
    && (forall i :: 0 <= i < |es| ==>
          es[i].Pair? && es[i].first in m && es[i].first !in rest && m[es[i].first] == es[i].second)
    && (forall i, j :: 0 <= i < j < |es| ==> es[i].first != es[j].first)
  }

  lemma {:induction false} EnumerateOneMore(es: seq<Value>, m: map<Value, Value>, rest: set<Value>, x: Value)
    requires rest <= m.Keys && EnumeratesAllBut(es, m, rest) && x in rest
    ensures EnumeratesAllBut(es + [Pair(x, m[x])], m, rest - {x})
  {
  }

  /** The elements read so far, put before what reading the others gives. */
  function Before(xs: seq<Value>, r: Option<(seq<Value>, seq<Byte>)>): Option<(seq<Value>, seq<Byte>)> {
    match r
    case None => None
    case Some((ys, rest)) => Some((xs + ys, rest))
  }

  lemma {:induction false} BeforeEnds(r: Option<(seq<Value>, seq<Byte>)>, xs: seq<Value>, rest: seq<Byte>)
    ensures Before([], r) == r
    ensures Before(xs, Some(([], rest))) == Some((xs, rest))
  {
    if r.Some? {
      assert [] + r.value.0 == r.value.0;
    }
    assert xs + [] == xs;
  }

  lemma {:induction false} BeforeStep(ty: Ty, n: nat, s: seq<Byte>, xs: seq<Value>, x: Value, rest: seq<Byte>)
    requires n > 0 && Decode(ty, s) == Some((x, rest))
    ensures Before(xs, DecodeAll(ty, n, s)) == Before(xs + [x], DecodeAll(ty, n - 1, rest))
  {
    if DecodeAll(ty, n - 1, rest).Some? {
      var (ys, more) := DecodeAll(ty, n - 1, rest).value;
      Regroup(xs, [x], ys);
    }
  }

  lemma {:induction false} InsertAllSnoc(es: seq<Value>, e: Value)
    ensures InsertAll(es + [e]) == Insert(InsertAll(es), e)
  {
    assert (es + [e])[..|es|] == es;
  }

  lemma {:induction false} BeforeFails(ty: Ty, n: nat, s: seq<Byte>, xs: seq<Value>)
    requires n > 0 && Decode(ty, s) == None
    ensures Before(xs, DecodeAll(ty, n, s)) == None
  {
  }

  class BinStream {
    var buffer: seq<Byte>
    var front: nat

    ghost predicate Valid()
      reads this
    {
      front <= |buffer|
    }

    /** The bytes not yet read. */
    function Contents(): seq<Byte>
      requires Valid()
      reads this
    {
      buffer[front..]
    }

    constructor ()
      ensures Valid() && Contents() == []
    {
      buffer, front := [], 0;
    }

    method PushBackBytes(src: seq<Byte>)
      requires Valid()
      modifies this`buffer
      ensures Valid() && Contents() == old(Contents()) + src
    {
      buffer := buffer + src;
    }

    method PopFrontBytes(n: nat) returns (r: Option<seq<Byte>>)
      requires Valid()
      modifies this`front
      ensures Valid()
      ensures match Pop(old(Contents()), n)
              case None => r == None
              case Some((b, rest)) => r == Some(b) && Contents() == rest
    {
      if |buffer| - front < n {
        return None;
      }
      assert buffer[front..][..n] == buffer[front..front + n] && buffer[front..][n..] == buffer[front + n..];
      r := Some(buffer[front..front + n]);
      front := front + n;
    }

    method WriteSize(n: nat)
      requires Valid()
      modifies this`buffer
      ensures Valid() && Contents() == old(Contents()) + SizeBytes(n)
    {
      PushBackBytes(SizeBytes(n));
    }

    method ReadSize() returns (r: Option<nat>)
      requires Valid()
      modifies this`front
      ensures Valid()
      ensures match PopSize(old(Contents()))
              case None => r == None
              case Some((n, rest)) => r == Some(n) && Contents() == rest
    {
      var b := PopFrontBytes(8);
      r := if b.None? then None else Some(FromLittleEndian(b.value));
    }

    method WriteBits(bits: seq<bool>)
      requires Valid()
      modifies this`buffer
      ensures Valid() && Contents() == old(Contents()) + BitBytes(bits)
    {
      var i := 0;
      while i < |bits|
        invariant i <= |bits| && Valid() && Contents() == old(Contents()) + BitBytes(bits)[..i]
      {
        PushBackBytes([if bits[i] then 1 else 0]);
        i := i + 1;
      }
    }

    /** `stream << v`, by the type of `v`. */
    method Write(ty: Ty, v: Value) returns (ghost e: seq<Byte>)
      requires Valid() && HasType(ty, v)
      modifies this`buffer
      ensures Valid() && Encodes(ty, v, e) && Contents() == old(Contents()) + e
      decreases Height(ty), 0
    {
      ghost var s := Contents();
      match ty
      case RawTy(_) =>
        PushBackBytes(v.bytes);
        e := v.bytes;
      case TextTy =>
        WriteSize(|v.chars|);
        PushBackBytes(v.chars);
        e := SizeBytes(|v.chars|) + v.chars;
        Regroup(s, SizeBytes(|v.chars|), v.chars);
      case SubTy =>
        WriteSize(|v.content|);
        PushBackBytes(v.content);
        e := SizeBytes(|v.content|) + v.content;
        Regroup(s, SizeBytes(|v.content|), v.content);
      case BitsTy =>
        WriteSize(|v.bits|);
        WriteBits(v.bits);
        e := SizeBytes(|v.bits|) + BitBytes(v.bits);
        Regroup(s, SizeBytes(|v.bits|), BitBytes(v.bits));
      case ListTy(t) =>
        WriteSize(|v.elems|);
        ghost var body := WriteAll(t, v.elems);
        ListEncodes(t, v.elems, body);
        e := SizeBytes(|v.elems|) + body;
        Regroup(s, SizeBytes(|v.elems|), body);
      case TableTy(k, w) =>
        WriteSize(|v.entries|);
        ghost var es, body := WriteEntries(k, w, v.entries);
        TableEncodes(k, w, es, v.entries, body);
        e := SizeBytes(|v.entries|) + body;
        Regroup(s, SizeBytes(|v.entries|), body);
      case PairTy(f, g) =>
        ghost var a := Write(f, v.first);
        ghost var b := Write(g, v.second);
        PairEncodes(f, g, v.first, v.second, a, b);
        e := a + b;
        Regroup(s, a, b);
      case BoxTy(t) =>
        e := Write(t, v.target);
    }

    method WriteAll(ty: Ty, vs: seq<Value>) returns (ghost e: seq<Byte>)
      requires Valid() && forall i :: 0 <= i < |vs| ==> HasType(ty, vs[i])
      modifies this`buffer
      ensures Valid() && EncodesAll(ty, vs, e) && Contents() == old(Contents()) + e
      decreases Height(ty), 1
    {
      ghost var s := Contents();
      e := [];
      var i := 0;
      while i < |vs|
        invariant i <= |vs| && Valid() && EncodesAll(ty, vs[..i], e) && Contents() == s + e
      {
        ghost var x := Write(ty, vs[i]);
        SnocEncodes(ty, vs[..i], vs[i], e, x);
        assert vs[..i + 1] == vs[..i] + [vs[i]];
        Regroup(s, e, x);
        e := e + x;
        i := i + 1;
      }
      assert vs[..|vs|] == vs;
    }

    /** The entries of a map, in some order. */
    method WriteEntries(k: Ty, w: Ty, m: map<Value, Value>) returns (ghost es: seq<Value>, ghost e: seq<Byte>)
      requires Valid() && forall x :: x in m ==> HasType(k, x) && HasType(w, m[x])
      modifies this`buffer
      ensures Valid() && Enumerates(es, m) && EncodesAll(PairTy(k, w), es, e) && Contents() == old(Contents()) + e
      decreases Height(PairTy(k, w)), 1
    {
      ghost var s, ty := Contents(), PairTy(k, w);
      es, e := [], [];
      var rest := m.Keys;
      while rest != {}
        invariant Valid() && rest <= m.Keys && EnumeratesAllBut(es, m, rest)
        invariant EncodesAll(ty, es, e) && Contents() == s + e
        decreases rest
      {
        assert (forall x :: x !in rest) ==> rest == {};
        var x :| x in rest;
        ghost var b := Write(PairTy(k, w), Pair(x, m[x]));
        SnocEncodes(ty, es, Pair(x, m[x]), e, b);
        Regroup(s, e, b);
        EnumerateOneMore(es, m, rest, x);
        es, e := es + [Pair(x, m[x])], e + b;
        rest := rest - {x};
      }
    }

    method ReadCount() returns (r: Option<nat>)
      requires Valid()
      modifies this`front
      ensures Valid()
      ensures match PopCount(old(Contents()))
              case None => r == None
              case Some((n, rest)) => r == Some(n) && Contents() == rest
    {
      r := ReadSize();
      if r.Some? && r.value >= LOOP_LIMIT {
        r := None;
      }
    }

    method ReadSized() returns (r: Option<seq<Byte>>)
      requires Valid()
      modifies this`front
      ensures Valid()
      ensures match PopSized(old(Contents()))
              case None => r == None
              case Some((b, rest)) => r == Some(b) && Contents() == rest
    {
      var n := ReadSize();
      if n.None? {
        return None;
      }
      r := PopFrontBytes(n.value);
    }

    /** `stream >> v`, by the type of `v`; `None` if that reads past the end. */
    method Read(ty: Ty) returns (r: Option<Value>)
      requires Valid()
      modifies this`front
      ensures Valid()
      ensures match Decode(ty, old(Contents()))
              case None => r == None
              case Some((v, rest)) => r == Some(v) && Contents() == rest
      decreases Height(ty), 0
    {
      match ty
      case RawTy(n) =>
        var b := PopFrontBytes(n);
        r := if b.None? then None else Some(Raw(b.value));
      case TextTy =>
        var b := ReadSized();
        r := if b.None? then None else Some(Text(b.value));
      case SubTy =>
        var b := ReadSized();
        r := if b.None? then None else Some(Sub(b.value));
      case BitsTy =>
        r := ReadBits();
      case ListTy(e) =>
        var n := ReadCount();
        if n.None? {
          return None;
        }
        var es := ReadAll(e, n.value);
        r := if es.None? then None else Some(List(es.value));
      case TableTy(k, v) =>
        var n := ReadCount();
        if n.None? {
          return None;
        }
        var m := ReadEntries(PairTy(k, v), n.value);
        r := if m.None? then None else Some(Table(m.value));
      case PairTy(f, g) =>
        var x := Read(f);
        if x.None? {
          return None;
        }
        var y := Read(g);
        r := if y.None? then None else Some(Pair(x.value, y.value));
      case BoxTy(t) =>
        var x := Read(t);
        r := if x.None? then None else Some(Boxed(x.value));
    }

    method ReadBits() returns (r: Option<Value>)
      requires Valid()
      modifies this`front
      ensures Valid()
      ensures match Decode(BitsTy, old(Contents()))
              case None => r == None
              case Some((v, rest)) => r == Some(v) && Contents() == rest
    {
      var n := ReadCount();
      if n.None? {
        return None;
      }
      ghost var s := Contents();
      var bits := [];
      while |bits| < n.value
        invariant Valid() && |bits| <= n.value && |bits| <= |s| && Contents() == s[|bits|..]
        invariant forall i :: 0 <= i < |bits| ==> bits[i] == (s[i] != 0)
        decreases n.value - |bits|
      {
        var b := PopFrontBytes(1);
        if b.None? {
          return None;
        }
        bits := bits + [b.value[0] != 0];
      }
      assert bits == seq(n.value, i requires 0 <= i < n.value => s[..n.value][i] != 0);
      r := Some(Bits(bits));
    }

    method ReadAll(ty: Ty, n: nat) returns (r: Option<seq<Value>>)
      requires Valid()
      modifies this`front
      ensures Valid()
      ensures match DecodeAll(ty, n, old(Contents()))
              case None => r == None
              case Some((vs, rest)) => r == Some(vs) && Contents() == rest
      decreases Height(ty), 1
    {
      ghost var s := Contents();
      var vs := [];
      BeforeEnds(DecodeAll(ty, n, s), [], []);
      while |vs| < n
        invariant Valid() && |vs| <= n
        invariant Before(vs, DecodeAll(ty, n - |vs|, Contents())) == DecodeAll(ty, n, s)
        decreases n - |vs|
      {
        ghost var now := Contents();
        var x := Read(ty);
        if x.None? {
          BeforeFails(ty, n - |vs|, now, vs);
          return None;
        }
        BeforeStep(ty, n - |vs|, now, vs, x.value, Contents());
        vs := vs + [x.value];
      }
      BeforeEnds(None, vs, Contents());
      r := Some(vs);
    }

    /** Entries are inserted into the map one by one; `ty` is the type of an entry. */
    method ReadEntries(ty: Ty, n: nat) returns (r: Option<map<Value, Value>>)
      requires Valid()
      modifies this`front
      ensures Valid()
      ensures match DecodeAll(ty, n, old(Contents()))
              case None => r == None
              case Some((es, rest)) => r == Some(InsertAll(es)) && Contents() == rest
      decreases Height(ty), 1
    {
      ghost var s := Contents();
      ghost var read: seq<Value> := [];
      var m: map<Value, Value> := map[];
      var i := 0;
      BeforeEnds(DecodeAll(ty, n, s), [], []);
      while i < n
        invariant Valid() && i == |read| <= n && m == InsertAll(read)
        invariant Before(read, DecodeAll(ty, n - i, Contents())) == DecodeAll(ty, n, s)
      {
        ghost var now := Contents();
        var e := Read(ty);
        if e.None? {
          BeforeFails(ty, n - i, now, read);
          return None;
        }
        BeforeStep(ty, n - i, now, read, e.value, Contents());
        InsertAllSnoc(read, e.value);
        read := read + [e.value];
        m := Insert(m, e.value);
        i := i + 1;
      }
      BeforeEnds(None, read, Contents());
      r := Some(m);
    }
  }
}
