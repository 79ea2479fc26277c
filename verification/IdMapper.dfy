/** SimpleIdMapper: thread ids of servers, worker helpers and workers, and which helper serves
    which worker. */
module IdMapping {

  const MAX_THREADS_PER_NODE: nat := 1000
  const MAX_BG_THREADS_PER_NODE: nat := 100
  const WORKER_HELPER_THREAD_ID: nat := 50

  /** The node that hosts a thread. */
  function NodeOf(tid: nat): nat {
    tid / MAX_THREADS_PER_NODE
  }

  function Base(node: nat): nat {
    MAX_THREADS_PER_NODE * node
  }

  function Range(lo: nat, hi: nat): (s: seq<nat>)
    requires lo <= hi
    ensures |s| == hi - lo && forall i :: 0 <= i < |s| ==> s[i] == lo + i
  {
    seq(hi - lo, i requires 0 <= i < hi - lo => lo + i)
  }

  function ServerIds(node: nat, count: nat): seq<nat> {
    Range(Base(node), Base(node) + count)
  }

  function HelperIds(node: nat): seq<nat> {
    Range(Base(node) + WORKER_HELPER_THREAD_ID, Base(node) + MAX_BG_THREADS_PER_NODE)
  }

  predicate IsServerId(node: nat, tid: nat) {
    Base(node) <= tid < Base(node) + WORKER_HELPER_THREAD_ID
  }

  predicate IsHelperId(node: nat, tid: nat) {
    Base(node) + WORKER_HELPER_THREAD_ID <= tid < Base(node) + MAX_BG_THREADS_PER_NODE
  }

  predicate IsWorkerId(node: nat, tid: nat) {
    Base(node) + MAX_BG_THREADS_PER_NODE <= tid < Base(node) + MAX_THREADS_PER_NODE
  }

  /** `Undefined` stands for running off the end of a function that must return a value. */
  datatype Allocation = Allocated(tid: nat) | Failed | Undefined

  /** The first id in lo..hi that is not taken, or `hi`. */
  function FirstFree(taken: set<nat>, lo: nat, hi: nat): (t: nat)
    requires lo <= hi
    ensures lo <= t <= hi && (t < hi ==> t !in taken)
    ensures forall x :: lo <= x < t ==> x in taken
    decreases hi - lo
  {
    if lo == hi || lo !in taken then lo else FirstFree(taken, lo + 1, hi)
  }

  datatype Mapper = Mapper(servers: map<nat, seq<nat>>, helpers: map<nat, seq<nat>>,
                           workers: map<nat, set<nat>>, helperOf: map<nat, nat>) {
    function Live(node: nat): set<nat> {
      if node in workers then workers[node] else {}
    }

    function HelpersOn(node: nat): seq<nat> {
      if node in helpers then helpers[node] else []
    }

    function AddNode(node: nat, count: nat): Mapper {
      Mapper(servers[node := ServerIds(node, count)], helpers[node := HelperIds(node)], workers[node := {}], helperOf)
    }

    function AddNodes(nodes: seq<nat>, count: nat): Mapper {
      if nodes == [] then this
      else AddNodes(nodes[..|nodes| - 1], count).AddNode(nodes[|nodes| - 1], count)
    }

    /** The first helper of the node that serves nobody, or the number of helpers. */
    function FreeHelper(node: nat): (i: nat)
      ensures i <= |HelpersOn(node)|
      ensures i < |HelpersOn(node)| ==> HelpersOn(node)[i] !in helperOf.Values
      ensures forall j :: 0 <= j < i ==> HelpersOn(node)[j] in helperOf.Values
    {
      FreeHelperFrom(HelpersOn(node), 0)
    }

    function FreeHelperFrom(hs: seq<nat>, i: nat): (r: nat)
      requires i <= |hs|
      ensures i <= r <= |hs|
      ensures r < |hs| ==> hs[r] !in helperOf.Values
      ensures forall j :: i <= j < r ==> hs[j] in helperOf.Values
      decreases |hs| - i
    {
      if i == |hs| || hs[i] !in helperOf.Values then i else FreeHelperFrom(hs, i + 1)
    }

    /** Looking an unknown node up in a table inserts an empty entry. */
    function TouchWorkers(node: nat): Mapper {
      this.(workers := workers[node := Live(node)])
    }

    function TouchHelpers(node: nat): Mapper {
      this.(helpers := helpers[node := HelpersOn(node)])
    }

    function AllocationOn(node: nat): Allocation {
      var tid := FirstFree(Live(node), Base(node) + MAX_BG_THREADS_PER_NODE, Base(node) + MAX_THREADS_PER_NODE);
      if |Live(node)| >= MAX_THREADS_PER_NODE - MAX_BG_THREADS_PER_NODE || tid == Base(node) + MAX_THREADS_PER_NODE then Failed
      else if FreeHelper(node) == |HelpersOn(node)| then Undefined
      else Allocated(tid)
    }

    /** The state after an allocation on the node. */
    function Allocate(node: nat): Mapper {
      match AllocationOn(node)
      case Failed => TouchWorkers(node)
      case Undefined => TouchWorkers(node).TouchHelpers(node)
      case Allocated(tid) =>
        Mapper(servers, helpers[node := HelpersOn(node)], workers[node := Live(node) + {tid}],
               helperOf[tid := HelpersOn(node)[FreeHelper(node)]])
    }

    function Deallocate(node: nat, tid: nat): Mapper {
      if tid in Live(node) then Mapper(servers, helpers, workers[node := Live(node) - {tid}], helperOf - {tid})
      else TouchWorkers(node)
    }
  }

  const EMPTY: Mapper := Mapper(map[], map[], map[], map[])

  /* ----- The invariant ----- */

  /** The ids of the known nodes are laid out; only known nodes have workers. */
  ghost predicate LaidOut(m: Mapper, known: set<nat>, count: nat) {
    && (forall n :: n in known ==> n in m.servers && m.servers[n] == ServerIds(n, count) && m.HelpersOn(n) == HelperIds(n))
    && (forall n :: n !in known ==> n !in m.servers && m.HelpersOn(n) == [] && m.Live(n) == {})
  }

  /** Every live worker has an id and a helper of its own node. */
  ghost predicate AllServed(m: Mapper) {
    forall n, w :: w in m.Live(n) ==> IsWorkerId(n, w) && w in m.helperOf && IsHelperId(n, m.helperOf[w])
  }

  /** Nobody else has one. */
  ghost predicate OnlyLiveServed(m: Mapper) {
    forall w :: w in m.helperOf ==> w in m.Live(NodeOf(w))
  }

  ghost predicate Injective(g: map<nat, nat>) {
    forall v, w :: v in g && w in g && g[v] == g[w] ==> v == w
  }

  ghost predicate Inv(m: Mapper, known: set<nat>, count: nat) {
    LaidOut(m, known, count) && AllServed(m) && OnlyLiveServed(m) && Injective(m.helperOf)
  }

  lemma {:induction false} NodeIs(node: nat, tid: nat)
    requires Base(node) <= tid < Base(node) + MAX_THREADS_PER_NODE
    ensures NodeOf(tid) == node
  {
  }

  lemma {:induction false} AddNodeKeeps(m: Mapper, known: set<nat>, count: nat, node: nat)
    requires LaidOut(m, known, count) && forall n :: m.Live(n) == {}
    ensures LaidOut(m.AddNode(node, count), known + {node}, count)
    ensures forall n :: m.AddNode(node, count).Live(n) == {}
  {
    var m' := m.AddNode(node, count);
    assert forall n :: m'.Live(n) == if n == node then {} else m.Live(n);
    assert forall n :: m'.HelpersOn(n) == if n == node then HelperIds(n) else m.HelpersOn(n);
  }

  ghost function NodeSet(nodes: seq<nat>): (ns: set<nat>)
    ensures forall n :: n in ns <==> n in nodes
  {
    set n | n in nodes
  }

  lemma {:induction false} InitLaysOut(nodes: seq<nat>, count: nat)
    ensures var m := EMPTY.AddNodes(nodes, count);
            m.helperOf == map[] && (forall n :: m.Live(n) == {}) && LaidOut(m, NodeSet(nodes), count)
  {
    if nodes != [] {
      var k := |nodes| - 1;
      InitLaysOut(nodes[..k], count);
      AddNodeKeeps(EMPTY.AddNodes(nodes[..k], count), NodeSet(nodes[..k]), count, nodes[k]);
      assert nodes == nodes[..k] + [nodes[k]];
      assert NodeSet(nodes) == NodeSet(nodes[..k]) + {nodes[k]};
    }
  }

  lemma {:induction false} InitEstablishes(nodes: seq<nat>, count: nat)
    ensures Inv(EMPTY.AddNodes(nodes, count), NodeSet(nodes), count)
  {
    InitLaysOut(nodes, count);
  }

  /** Init on any state: the named nodes have no workers and their ids laid out afterwards,
      all others are as before, and so is the table of helpers. */
  lemma {:induction false} InitAnyState(m: Mapper, nodes: seq<nat>, count: nat, n: nat)
    ensures var m' := m.AddNodes(nodes, count);
            && m'.helperOf == m.helperOf
            && (n in nodes ==> m'.Live(n) == {} && m'.HelpersOn(n) == HelperIds(n) && n in m'.servers && m'.servers[n] == ServerIds(n, count))
            && (n !in nodes ==> m'.Live(n) == m.Live(n) && m'.HelpersOn(n) == m.HelpersOn(n))
  {
    if nodes != [] {
      var k := |nodes| - 1;
      InitAnyState(m, nodes[..k], count, n);
      assert nodes == nodes[..k] + [nodes[k]];
    }
  }

  lemma {:induction false} LiveAfterAllocate(m: Mapper, node: nat)
    ensures var a := m.AllocationOn(node);
            forall n :: m.Allocate(node).Live(n) == if n == node && a.Allocated? then m.Live(n) + {a.tid} else m.Live(n)
    ensures forall n :: m.Allocate(node).HelpersOn(n) == m.HelpersOn(n)
  {
  }

  lemma {:induction false} InjectiveInsert(g: map<nat, nat>, x: nat, y: nat)
    requires Injective(g) && y !in g.Values
    ensures Injective(g[x := y])
  {
    var g' := g[x := y];
    forall v, w | v in g' && w in g' && g'[v] == g'[w]
      ensures v == w
    {
      assert v != x ==> g[v] in g.Values;
      assert w != x ==> g[w] in g.Values;
    }
  }

  lemma {:induction false} HireKeepsServed(m: Mapper, m': Mapper, node: nat, tid: nat, h: nat)
    requires AllServed(m) && OnlyLiveServed(m) && Injective(m.helperOf)
    requires IsHelperId(node, h) && IsWorkerId(node, tid) && tid !in m.Live(node) && h !in m.helperOf.Values
    requires forall n :: m'.Live(n) == if n == node then m.Live(n) + {tid} else m.Live(n)
    requires m'.helperOf == m.helperOf[tid := h]
    ensures AllServed(m') && OnlyLiveServed(m') && Injective(m'.helperOf)
  {
    NodeIs(node, tid);
    assert tid !in m.helperOf;
    InjectiveInsert(m.helperOf, tid, h);
  }

  lemma {:induction false} AllocateKeeps(m: Mapper, known: set<nat>, count: nat, node: nat)
    requires Inv(m, known, count)
    ensures Inv(m.Allocate(node), known, count)
  {
    LiveAfterAllocate(m, node);
    if m.AllocationOn(node).Allocated? {
      var tid, h := m.AllocationOn(node).tid, m.HelpersOn(node)[m.FreeHelper(node)];
      assert node in known && IsHelperId(node, h);
      HireKeepsServed(m, m.Allocate(node), node, tid, h);
    }
  }

  lemma {:induction false} LiveAfterDeallocate(m: Mapper, node: nat, tid: nat)
    ensures forall n :: m.Deallocate(node, tid).Live(n) == if n == node then m.Live(n) - {tid} else m.Live(n)
    ensures forall n :: m.Deallocate(node, tid).HelpersOn(n) == m.HelpersOn(n)
  {
  }

  lemma {:induction false} FireKeepsServed(m: Mapper, m': Mapper, node: nat, tid: nat)
    requires AllServed(m) && OnlyLiveServed(m) && Injective(m.helperOf) && tid in m.Live(node)
    requires forall n :: m'.Live(n) == if n == node then m.Live(n) - {tid} else m.Live(n)
    requires m'.helperOf == m.helperOf - {tid}
    ensures AllServed(m') && OnlyLiveServed(m') && Injective(m'.helperOf)
  {
    assert IsWorkerId(node, tid);
    NodeIs(node, tid);
    forall n | tid in m'.Live(n)
      ensures false
    {
      NodeIs(n, tid);
    }
  }

  lemma {:induction false} DeallocateKeeps(m: Mapper, known: set<nat>, count: nat, node: nat, tid: nat)
    requires Inv(m, known, count)
    ensures Inv(m.Deallocate(node, tid), known, count)
  {
    var m' := m.Deallocate(node, tid);
    LiveAfterDeallocate(m, node, tid);
    if tid in m.Live(node) {
      FireKeepsServed(m, m', node, tid);
    }
  }

  /* ----- Any sequence of allocations and deallocations ----- */

  datatype Op = Alloc(node: nat) | Dealloc(node: nat, tid: nat)

  function Do(m: Mapper, op: Op): Mapper {
    match op
    case Alloc(node) => m.Allocate(node)
    case Dealloc(node, tid) => m.Deallocate(node, tid)
  }

  function RunOps(m: Mapper, ops: seq<Op>): Mapper {
    if ops == [] then m else Do(RunOps(m, ops[..|ops| - 1]), ops[|ops| - 1])
  }

  lemma {:induction false} RunKeeps(m: Mapper, known: set<nat>, count: nat, ops: seq<Op>)
    requires Inv(m, known, count)
    ensures Inv(RunOps(m, ops), known, count)
  {
    if ops != [] {
      var before, op := RunOps(m, ops[..|ops| - 1]), ops[|ops| - 1];
      RunKeeps(m, known, count, ops[..|ops| - 1]);
      match op
      case Alloc(node) => AllocateKeeps(before, known, count, node);
      case Dealloc(node, tid) => DeallocateKeeps(before, known, count, node, tid);
    }
  }

  /** The states of the allocator: Init on the nodes, then any allocations and deallocations. */
  function Reached(nodes: seq<nat>, count: nat, ops: seq<Op>): Mapper {
    RunOps(EMPTY.AddNodes(nodes, count), ops)
  }

  lemma {:induction false} ReachedInv(nodes: seq<nat>, count: nat, ops: seq<Op>)
    ensures Inv(Reached(nodes, count, ops), NodeSet(nodes), count)
  {
    InitEstablishes(nodes, count);
    RunKeeps(EMPTY.AddNodes(nodes, count), NodeSet(nodes), count, ops);
  }

  lemma {:induction false} ServedOnOwnNode(m: Mapper, known: set<nat>, count: nat, w: nat)
    requires Inv(m, known, count) && w in m.helperOf
    ensures NodeOf(m.helperOf[w]) == NodeOf(w) && NodeOf(w) in known
  {
    var n := NodeOf(w);
    assert w in m.Live(n);
    assert IsHelperId(n, m.helperOf[w]);
    NodeIs(n, m.helperOf[w]);
  }

  /** ALLOCATOR INVARIANT. After Init and any sequence of allocations and deallocations: no
      two workers share a helper; exactly the live workers have one, on their own node. */
  lemma {:induction false} WorkersHaveTheirOwnHelper(nodes: seq<nat>, count: nat, ops: seq<Op>)
    ensures var m := Reached(nodes, count, ops);
            && Injective(m.helperOf)
            && (forall w :: w in m.helperOf <==> exists n :: w in m.Live(n))
            && (forall w :: w in m.helperOf ==> NodeOf(m.helperOf[w]) == NodeOf(w) && NodeOf(w) in nodes)
  {
    var m := Reached(nodes, count, ops);
    ReachedInv(nodes, count, ops);
    forall w | w in m.helperOf
      ensures NodeOf(m.helperOf[w]) == NodeOf(w) && NodeOf(w) in nodes
    {
      ServedOnOwnNode(m, NodeSet(nodes), count, w);
    }
  }

  lemma {:induction false} IdsOfNode(m: Mapper, known: set<nat>, count: nat, n: nat, t: nat)
    requires Inv(m, known, count) && n in known && count <= WORKER_HELPER_THREAD_ID
    ensures t in m.servers[n] ==> IsServerId(n, t) && NodeOf(t) == n
    ensures t in m.HelpersOn(n) ==> IsHelperId(n, t) && NodeOf(t) == n
    ensures t in m.Live(n) ==> IsWorkerId(n, t) && NodeOf(t) == n
  {
    if Base(n) <= t < Base(n) + MAX_THREADS_PER_NODE {
      NodeIs(n, t);
    }
  }

  /** The three kinds of ids never meet, on one node or two, and each id leads back to its
      node by division. */
  lemma {:induction false} KindsAreDisjoint(nodes: seq<nat>, count: nat, ops: seq<Op>, n: nat, k: nat, t: nat)
    requires 1 <= count <= WORKER_HELPER_THREAD_ID && n in nodes && k in nodes
    ensures var m := Reached(nodes, count, ops);
            && n in m.servers && |m.servers[n]| == count && |m.HelpersOn(n)| == 50
            && (t in m.servers[n] ==> NodeOf(t) == n && t !in m.HelpersOn(k) && t !in m.Live(k))
            && (t in m.HelpersOn(n) ==> NodeOf(t) == n && t !in m.Live(k))
            && (t in m.Live(n) ==> NodeOf(t) == n)
  {
    var known := NodeSet(nodes);
    var m := Reached(nodes, count, ops);
    ReachedInv(nodes, count, ops);
    IdsOfNode(m, known, count, n, t);
    IdsOfNode(m, known, count, k, t);
  }

  /** In numbers: node n has its servers at 1000 n upwards, its 50 helpers at 1000 n + 50
      upwards and its workers from 1000 n + 100 to 1000 n + 999; the node of an id is the id
      divided by 1000. */
  lemma {:induction false} IdsInNumbers(nodes: seq<nat>, count: nat, ops: seq<Op>, n: nat, tid: nat)
    requires 1 <= count <= 50 && n in nodes
    ensures var m := Reached(nodes, count, ops);
            && n in m.servers && |m.servers[n]| == count && (forall i :: 0 <= i < count ==> m.servers[n][i] == 1000 * n + i)
            && |m.HelpersOn(n)| == 50 && (forall i :: 0 <= i < 50 ==> m.HelpersOn(n)[i] == 1000 * n + 50 + i)
            && (tid in m.Live(n) ==> 1000 * n + 100 <= tid <= 1000 * n + 999)
    ensures NodeOf(tid) == tid / 1000
  {
    ReachedInv(nodes, count, ops);
    IdsOfNode(Reached(nodes, count, ops), NodeSet(nodes), count, n, tid);
  }

  /* ----- When allocation succeeds ----- */

  ghost function RangeSet(lo: nat, hi: nat): (s: set<nat>)
    requires lo <= hi
    ensures forall x :: x in s <==> lo <= x < hi
  {
    if lo == hi then {} else RangeSet(lo, hi - 1) + {hi - 1}
  }

  lemma {:induction false} RangeCard(lo: nat, hi: nat)
    requires lo <= hi
    ensures |RangeSet(lo, hi)| == hi - lo
    decreases hi - lo
  {
    if lo < hi {
      RangeCard(lo, hi - 1);
      var s := RangeSet(lo, hi - 1);
      assert hi - 1 !in s && |s + {hi - 1}| == |s| + 1;
    }
  }

  lemma {:induction false} SubsetCard(a: set<nat>, b: set<nat>)
    requires a <= b
    ensures |a| <= |b| && (|a| == |b| ==> a == b)
  {
    assert b == a + (b - a);
  }

  ghost function Image(g: map<nat, nat>, s: set<nat>): set<nat>
    requires s <= g.Keys
  {
    set x | x in s :: g[x]
  }

  /** An injective map keeps cardinality. */
  lemma {:induction false} ImageCard(g: map<nat, nat>, s: set<nat>)
    requires s <= g.Keys
    requires Injective(g)
    ensures |Image(g, s)| == |s|
    decreases |s|
  {
    if s != {} {
      var x :| x in s;
      ImageCard(g, s - {x});
      assert Image(g, s) == Image(g, s - {x}) + {g[x]};
    }
  }

  lemma {:induction false} SameNode(a: nat, b: nat, h: nat)
    requires IsHelperId(a, h) && IsHelperId(b, h)
    ensures a == b
  {
  }

  lemma {:induction false} ServesLiveWorker(m: Mapper, known: set<nat>, count: nat, node: nat, h: nat) returns (w: nat)
    requires Inv(m, known, count) && IsHelperId(node, h) && h in m.helperOf.Values
    ensures w in m.Live(node) && w in m.helperOf && m.helperOf[w] == h
  {
    w :| w in m.helperOf && m.helperOf[w] == h;
    assert w in m.Live(NodeOf(w));
    SameNode(node, NodeOf(w), h);
  }

  /** The busy helpers of a node are the images of its live workers, one each. */
  lemma {:induction false} BusyHelpers(m: Mapper, known: set<nat>, count: nat, node: nat)
    requires Inv(m, known, count)
    ensures m.Live(node) <= m.helperOf.Keys && |Image(m.helperOf, m.Live(node))| == |m.Live(node)|
    ensures forall h :: IsHelperId(node, h) && h in m.helperOf.Values ==> h in Image(m.helperOf, m.Live(node))
    ensures forall h :: h in Image(m.helperOf, m.Live(node)) ==> IsHelperId(node, h) && h in m.helperOf.Values
  {
    ImageCard(m.helperOf, m.Live(node));
    forall h | IsHelperId(node, h) && h in m.helperOf.Values
      ensures h in Image(m.helperOf, m.Live(node))
    {
      var w := ServesLiveWorker(m, known, count, node, h);
    }
  }

  /** A known node has at most 50 live workers, and has a free helper exactly when it has fewer. */
  lemma {:induction false} FreeHelperIffRoom(m: Mapper, known: set<nat>, count: nat, node: nat)
    requires Inv(m, known, count) && node in known
    ensures |m.Live(node)| <= 50
    ensures m.FreeHelper(node) < |m.HelpersOn(node)| <==> |m.Live(node)| < 50
  {
    var lo, hi := Base(node) + 50, Base(node) + 100;
    var busy := Image(m.helperOf, m.Live(node));
    BusyHelpers(m, known, count, node);
    RangeCard(lo, hi);
    SubsetCard(busy, RangeSet(lo, hi));
    var hs, i := m.HelpersOn(node), m.FreeHelper(node);
    if i < |hs| {
      assert hs[i] in RangeSet(lo, hi) && hs[i] !in busy;
    } else {
      forall h | h in RangeSet(lo, hi)
        ensures h in busy
      {
        assert hs[h - lo] == h;
      }
      SubsetCard(RangeSet(lo, hi), busy);
    }
  }

  lemma {:induction false} FreeWorkerId(live: set<nat>, lo: nat, hi: nat)
    requires lo <= hi && |live| < hi - lo
    ensures FirstFree(live, lo, hi) < hi
  {
    if FirstFree(live, lo, hi) == hi {
      RangeCard(lo, hi);
      SubsetCard(RangeSet(lo, hi), live);
    }
  }

  /** EXACT CONDITION. Over every run, allocation on a known node succeeds if and only if the
      node has fewer than 50 live workers; otherwise its value is undefined. The documented
      failure value is never returned. */
  lemma {:induction false} AllocationSucceedsIffRoom(nodes: seq<nat>, count: nat, ops: seq<Op>, node: nat)
    requires 1 <= count <= WORKER_HELPER_THREAD_ID && node in nodes
    ensures var m := Reached(nodes, count, ops);
            if |m.Live(node)| < 50 then m.AllocationOn(node).Allocated? && IsWorkerId(node, m.AllocationOn(node).tid)
            else m.AllocationOn(node) == Undefined
  {
    var known := NodeSet(nodes);
    var m := Reached(nodes, count, ops);
    ReachedInv(nodes, count, ops);
    FreeHelperIffRoom(m, known, count, node);
    FreeWorkerId(m.Live(node), Base(node) + MAX_BG_THREADS_PER_NODE, Base(node) + MAX_THREADS_PER_NODE);
  }

  /** On a node that Init was not told about, allocation is always undefined. */
  lemma {:induction false} UnknownNodeIsUndefined(nodes: seq<nat>, count: nat, ops: seq<Op>, node: nat)
    requires 1 <= count <= WORKER_HELPER_THREAD_ID && node !in nodes
    ensures Reached(nodes, count, ops).AllocationOn(node) == Undefined
  {
    var known := NodeSet(nodes);
    var m := Reached(nodes, count, ops);
    ReachedInv(nodes, count, ops);
    assert m.Live(node) == {} && m.HelpersOn(node) == [];
    FreeWorkerId({}, Base(node) + MAX_BG_THREADS_PER_NODE, Base(node) + MAX_THREADS_PER_NODE);
  }

  lemma {:induction false} InsertRemove(g: map<nat, nat>, x: nat, y: nat)
    requires x !in g
    ensures g[x := y] - {x} == g
  {
  }

  /** A freed worker's helper can serve again: allocating and deallocating on a known node
      with room restores who is alive and who serves whom. */
  lemma {:induction false} DeallocateUndoesAllocate(m: Mapper, known: set<nat>, count: nat, node: nat)
    requires Inv(m, known, count) && m.AllocationOn(node).Allocated?
    ensures var m' := m.Allocate(node).Deallocate(node, m.AllocationOn(node).tid);
            m'.helperOf == m.helperOf && m'.servers == m.servers && forall n :: m'.Live(n) == m.Live(n)
  {
    var tid, mid := m.AllocationOn(node).tid, m.Allocate(node);
    NodeIs(node, tid);
    LiveAfterAllocate(m, node);
    assert tid !in m.helperOf && tid !in m.Live(node);
    InsertRemove(m.helperOf, tid, mid.helperOf[tid]);
    LiveAfterDeallocate(mid, node, tid);
  }

  /* ----- The object ----- */

  class SimpleIdMapper {
    const nodes: seq<nat>
    var node2server: map<nat, seq<nat>>
    var node2workerHelper: map<nat, seq<nat>>
    var node2worker: map<nat, set<nat>>
    var worker2helper: map<nat, nat>

    function State(): Mapper
      reads this
    {
      Mapper(node2server, node2workerHelper, node2worker, worker2helper)
    }

    constructor (nodes: seq<nat>)
      ensures State() == EMPTY && this.nodes == nodes
    {
      this.nodes := nodes;
      node2server, node2workerHelper, node2worker, worker2helper := map[], map[], map[], map[];
    }

    method GetNodeIdForThread(tid: nat) returns (node: nat)
      ensures Base(node) <= tid < Base(node + 1)
    {
      node := tid / MAX_THREADS_PER_NODE;
    }

    method Ids(lo: nat, hi: nat) returns (ids: seq<nat>)
      requires lo <= hi
      ensures ids == Range(lo, hi)
    {
      ids := [];
      var id := lo;
      while id < hi
        invariant lo <= id <= hi && ids == Range(lo, id)
      {
        ids := ids + [id];
        id := id + 1;
      }
    }

    /** Fails, and changes nothing, unless the number of servers fits below the helper ids. */
    method Init(count: int) returns (ok: bool)
      modifies this
      ensures ok == (1 <= count <= WORKER_HELPER_THREAD_ID)
      ensures State() == if ok then old(State()).AddNodes(nodes, count) else old(State())
    {
      if count < 1 || count > WORKER_HELPER_THREAD_ID {
        return false;
      }
      ghost var start := State();
      var i := 0;
      while i < |nodes|
        invariant i <= |nodes| && State() == start.AddNodes(nodes[..i], count)
      {
        var node := nodes[i];
        var base := MAX_THREADS_PER_NODE * node;
        var servers := Ids(base, base + count);
        var helpers := Ids(base + WORKER_HELPER_THREAD_ID, base + MAX_BG_THREADS_PER_NODE);
        node2server := node2server[node := servers];
        node2workerHelper := node2workerHelper[node := helpers];
        node2worker := node2worker[node := {}];
        assert nodes[..i + 1][..i] == nodes[..i];
        i := i + 1;
      }
      assert nodes[..|nodes|] == nodes;
      ok := true;
    }

    /** The helper is recorded before the worker id is. */
    method AllocateHelperForWorker(node: nat, worker: nat) returns (r: Allocation)
      modifies this`node2workerHelper, this`worker2helper
      ensures var m, i := old(State()), old(State()).FreeHelper(node);
              && node2workerHelper == m.TouchHelpers(node).helpers
              && (if i < |m.HelpersOn(node)|
                  then r == Allocated(m.HelpersOn(node)[i]) && worker2helper == m.helperOf[worker := m.HelpersOn(node)[i]]
                  else r == Undefined && worker2helper == m.helperOf)
    {
      ghost var m := State();
      var occupied := worker2helper.Values;
      if node !in node2workerHelper {
        node2workerHelper := node2workerHelper[node := []];
      }
      var all := node2workerHelper[node];
      var i := 0;
      while i < |all|
        invariant i <= |all| && all == m.HelpersOn(node)
        invariant m.FreeHelper(node) == m.FreeHelperFrom(all, i)
      {
        if all[i] !in occupied {
          worker2helper := worker2helper[worker := all[i]];
          return Allocated(all[i]);
        }
        i := i + 1;
      }
      r := Undefined;
    }

    method AllocateWorkerThread(node: nat) returns (r: Allocation)
      modifies this
      ensures r == old(State()).AllocationOn(node) && State() == old(State()).Allocate(node)
    {
      ghost var m := State();
      if node !in node2worker {
        node2worker := node2worker[node := {}];
      }
      if |node2worker[node]| >= MAX_THREADS_PER_NODE - MAX_BG_THREADS_PER_NODE {
        return Failed;
      }
      var minId, maxId := MAX_THREADS_PER_NODE * node + MAX_BG_THREADS_PER_NODE, MAX_THREADS_PER_NODE * (node + 1);
      var tid := minId;
      while tid < maxId
        invariant minId <= tid <= maxId && State() == m.TouchWorkers(node)
        invariant FirstFree(m.Live(node), minId, maxId) == FirstFree(m.Live(node), tid, maxId)
      {
        if tid !in node2worker[node] {
          var helper := AllocateHelperForWorker(node, tid);
          if helper.Undefined? {
            return Undefined;
          }
          node2worker := node2worker[node := node2worker[node] + {tid}];
          return Allocated(tid);
        }
        tid := tid + 1;
      }
      r := Failed;
    }

    method DeallocateWorkerThread(node: nat, tid: nat)
      modifies this
      ensures State() == old(State()).Deallocate(node, tid)
    {
      if node !in node2worker {
        node2worker := node2worker[node := {}];
      }
      if tid !in node2worker[node] {
        return;
      }
      node2worker := node2worker[node := node2worker[node] - {tid}];
      worker2helper := worker2helper - {tid};
    }
  }
}
