/** Facts about sequences that several components need. */
module Sequences {

  lemma {:induction false} Regroup<T>(a: seq<T>, b: seq<T>, c: seq<T>)
    ensures (a + b) + c == a + (b + c)
  {
  }

  lemma {:induction false} SplitAt<T>(b: seq<T>, x: T) returns (pre: seq<T>, post: seq<T>)
    requires x in b
    ensures b == pre + ([x] + post)
  {
    var i :| 0 <= i < |b| && b[i] == x;
    pre, post := b[..i], b[i + 1..];
  }

  lemma {:induction false} RemoveFrom<T>(pre: seq<T>, x: T, post: seq<T>)
    ensures multiset(pre + post) == multiset(pre + ([x] + post)) - multiset{x}
  {
  }

  lemma {:induction false} RemoveFirst<T>(a: seq<T>)
    requires a != []
    ensures a == [a[0]] + a[1..] && multiset(a[1..]) == multiset(a) - multiset{a[0]}
  {
    assert a == [a[0]] + a[1..];
  }

  /** The first element of a sequence, found and taken out in a permutation of it. */
  lemma {:induction false} TakeOutFirst<T>(a: seq<T>, b: seq<T>) returns (pre: seq<T>, post: seq<T>)
    requires a != [] && multiset(a) == multiset(b)
    ensures a == [a[0]] + a[1..] && b == pre + ([a[0]] + post) && multiset(a[1..]) == multiset(pre + post)
  {
    assert a[0] in multiset(b);
    pre, post := SplitAt(b, a[0]);
    RemoveFrom(pre, a[0], post);
    RemoveFirst(a);
  }
}
