/** PendingBuffer: deferred messages, in arrival order, under the clock they wait for. */
module PendingMessages {
  import opened Messages

  type Pending = map<int, seq<Message>>

  /** The messages waiting for `clock`. */
  function HeldAt(b: Pending, clock: int): seq<Message> {
    if clock in b then b[clock] else []
  }

  function Push(b: Pending, clock: int, m: Message): Pending {
    b[clock := HeldAt(b, clock) + [m]]
  }

  function Without(b: Pending, clock: int): Pending {
    b - {clock}
  }

  function Count(ms: seq<Message>, p: Message -> bool): nat {
    if ms == [] then 0
    else Count(ms[..|ms| - 1], p) + if p(ms[|ms| - 1]) then 1 else 0
  }

  /** How many held messages, under any clock, satisfy `p`. */
  ghost function Tally(b: Pending, p: Message -> bool): nat
    decreases |b|
  {
    if b == map[] then 0
    else
      assert (forall k :: k !in b) ==> b == map[];
      var k :| k in b;
      Count(b[k], p) + Tally(Without(b, k), p)
  }

  lemma {:induction false} CountConcat(a: seq<Message>, b: seq<Message>, p: Message -> bool)
    ensures Count(a + b, p) == Count(a, p) + Count(b, p)
  {
    if b == [] {
      assert a + b == a;
    } else {
      CountConcat(a, b[..|b| - 1], p);
      assert (a + b)[..|a + b| - 1] == a + b[..|b| - 1];
    }
  }

  lemma {:induction false} CountPositive(ms: seq<Message>, p: Message -> bool) returns (i: nat)
    requires Count(ms, p) > 0
    ensures i < |ms| && p(ms[i])
  {
    i := |ms| - 1;
    if !p(ms[i]) {
      i := CountPositive(ms[..i], p);
    }
  }

  /** The tally does not depend on the order in which the clocks are visited. */
  lemma {:induction false} TallySplit(b: Pending, clock: int, p: Message -> bool)
    ensures Tally(b, p) == Count(HeldAt(b, clock), p) + Tally(Without(b, clock), p)
    decreases |b|
  {
    if clock !in b {
      assert Without(b, clock) == b;
    } else {
      var k :| k in b && Tally(b, p) == Count(b[k], p) + Tally(Without(b, k), p);
      if k != clock {
        TallySplit(Without(b, k), clock, p);
        TallySplit(Without(b, clock), k, p);
        assert Without(Without(b, k), clock) == Without(Without(b, clock), k);
      }
    }
  }

  lemma {:induction false} TallyPush(b: Pending, clock: int, m: Message, p: Message -> bool)
    ensures Tally(Push(b, clock, m), p) == Tally(b, p) + if p(m) then 1 else 0
  {
    TallySplit(b, clock, p);
    TallySplit(Push(b, clock, m), clock, p);
    assert Without(Push(b, clock, m), clock) == Without(b, clock);
    assert (HeldAt(b, clock) + [m])[..|HeldAt(b, clock)|] == HeldAt(b, clock);
  }

  lemma {:induction false} TallyPositive(b: Pending, p: Message -> bool) returns (k: int, i: nat)
    requires Tally(b, p) > 0
    ensures k in b && i < |b[k]| && p(b[k][i])
    decreases |b|
  {
    k :| k in b && Tally(b, p) == Count(b[k], p) + Tally(Without(b, k), p);
    if Count(b[k], p) > 0 {
      i := CountPositive(b[k], p);
    } else {
      k, i := TallyPositive(Without(b, k), p);
    }
  }

  lemma {:induction false} CountMember(ms: seq<Message>, i: nat, p: Message -> bool)
    requires i < |ms| && p(ms[i])
    ensures Count(ms, p) > 0
  {
    if i < |ms| - 1 {
      CountMember(ms[..|ms| - 1], i, p);
    }
  }

  lemma {:induction false} TallyMember(b: Pending, k: int, i: nat, p: Message -> bool)
    requires k in b && i < |b[k]| && p(b[k][i])
    ensures Tally(b, p) > 0
  {
    TallySplit(b, k, p);
    CountMember(b[k], i, p);
  }

  class PendingBuffer {
    var buffer: Pending

    constructor ()
      ensures buffer == map[]
    {
      buffer := map[];
    }

    method Push(clock: int, m: Message)
      modifies this
      ensures buffer == old(buffer)[clock := HeldAt(old(buffer), clock) + [m]]
    {
      if clock !in buffer {
        buffer := buffer[clock := []];
      }
      buffer := buffer[clock := buffer[clock] + [m]];
    }

    method Pop(clock: int) returns (ms: seq<Message>)
      modifies this
      ensures ms == HeldAt(old(buffer), clock)
      ensures buffer == Without(old(buffer), clock)
      ensures forall p: Message -> bool :: Count(ms, p) + Tally(buffer, p) == Tally(old(buffer), p)
    {
      ghost var was := buffer;
      ms := [];
      if clock in buffer {
        ms := buffer[clock];
        buffer := buffer - {clock};
      }
      assert buffer == Without(was, clock);
      forall p: Message -> bool
        ensures Count(ms, p) + Tally(buffer, p) == Tally(was, p)
      {
        TallySplit(was, clock, p);
      }
    }

    method Size(clock: int) returns (n: nat)
      ensures n == |HeldAt(buffer, clock)|
    {
      n := if clock in buffer then |buffer[clock]| else 0;
    }
  }
}
