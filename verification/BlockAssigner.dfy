/** HDFSBlockAssigner: hands out file blocks, preferring blocks on the asking host. */
module BlockAssigner {

  type Host = string
  type Url = string

  /** The equality of block descriptors ignores the replica's location, so a descriptor is a
      file and an offset. File names are never empty: the code appends a terminator. */
  datatype Block = Block(file: string, offset: nat)

  /** The blocks with a replica on each host. */
  type Locality = map<Host, set<Block>>

  /** Each task id keeps its own copy of a url's blocks. */
  datatype Task = Task(id: int, url: Url)

  datatype Request = Request(host: Host, url: Url, id: int, numThreads: int)

  datatype Answer = Nothing | Assigned(block: Block)

  datatype Assigner = Assigner(connected: bool, locality: map<Task, Locality>, finish: map<Task, nat>, alive: int)

  function TaskOf(r: Request): Task {
    Task(r.id, r.url)
  }

  /** The replicas that remain, looking up the asking host as the code does: an unknown host
      gets an empty entry. */
  function WithHost(loc: Locality, host: Host): Locality {
    if host in loc then loc else loc[host := {}]
  }

  predicate AllEmpty(loc: Locality) {
    forall h :: h in loc ==> loc[h] == {}
  }

  ghost predicate Has(loc: Locality, b: Block) {
    exists h :: h in loc && b in loc[h]
  }

  function RemoveBlock(loc: Locality, b: Block): Locality {
    map h | h in loc :: loc[h] - {b}
  }

  /** The state after the first part of `answer`: `dir` is what browsing the url finds. */
  function Browsed(s: Assigner, dir: Url -> Locality, t: Task): Assigner {
    if t in s.locality then s
    else s.(locality := s.locality[t := dir(t.url)], finish := s.finish[t := 0])
  }

  function FinishOf(s: Assigner, t: Task): nat {
    if t in s.finish then s.finish[t] else 0
  }

  /** One block request and its answer. Which eligible block is chosen is left open, as the
      code takes the first of an unordered set. */
  ghost predicate IsStep(s: Assigner, dir: Url -> Locality, r: Request, a: Answer, s': Assigner) {
    var t := TaskOf(r);
    var alive := s.alive + r.numThreads;
    if !s.connected then a == Nothing && s' == s.(alive := alive)
    else
      var b := Browsed(s, dir, t).(alive := alive);
      var loc := WithHost(b.locality[t], r.host);
      match a
      case Nothing =>
        && AllEmpty(loc)
        && var n := FinishOf(b, t) + 1;
           s' == b.(finish := b.finish[t := n],
                    locality := if n == alive then b.locality - {t} else b.locality[t := loc])
      case Assigned(block) =>
        && Has(loc, block)
        && (loc[r.host] != {} ==> block in loc[r.host])
        && s' == b.(locality := b.locality[t := RemoveBlock(loc, block)])
  }

  /** The scan for any host that still has a block. */
  method FindUnfinishedHost(loc: Locality) returns (isFinish: bool, selected: Host)
    ensures isFinish <==> AllEmpty(loc)
    ensures !isFinish ==> selected in loc && loc[selected] != {}
  {
    isFinish, selected := true, "";
    var rest := loc.Keys;
    while rest != {}
      invariant rest <= loc.Keys
      invariant forall h :: h in loc && h !in rest ==> loc[h] == {}
      decreases rest
    {
      assert (forall h :: h !in rest) ==> rest == {};
      var h :| h in rest;
      if loc[h] != {} {
        return false, h;
      }
      rest := rest - {h};
    }
  }

  /** The loop that erases the block on every host. */
  method EraseReplicas(loc: Locality, block: Block) returns (cleared: Locality)
    ensures cleared == RemoveBlock(loc, block)
  {
    cleared := loc;
    var rest := loc.Keys;
    while rest != {}
      invariant rest <= loc.Keys && cleared.Keys == loc.Keys
      invariant forall h :: h in loc ==> cleared[h] == if h in rest then loc[h] else loc[h] - {block}
      decreases rest
    {
      assert (forall h :: h !in rest) ==> rest == {};
      var h :| h in rest;
      cleared := cleared[h := cleared[h] - {block}];
      rest := rest - {h};
    }
  }

  /** The assigner object. */
  class HDFSBlockAssigner {
    const connected: bool
    const dir: Url -> Locality
    var locality: map<Task, Locality>
    var finish: map<Task, nat>
    var numWorkersAlive: int

    ghost function Value(): Assigner
      reads this
    {
      Assigner(connected, locality, finish, numWorkersAlive)
    }

    constructor (connected: bool, dir: Url -> Locality)
      ensures this.connected == connected && this.dir == dir
      ensures locality == map[] && finish == map[] && numWorkersAlive == 0
    {
      this.connected, this.dir, locality, finish, numWorkersAlive := connected, dir, map[], map[], 0;
    }

    method HandleBlockRequest(r: Request) returns (a: Answer)
      modifies this
      ensures IsStep(old(Value()), dir, r, a, Value())
    {
      numWorkersAlive := numWorkersAlive + r.numThreads;
      a := GiveAnswer(r);
    }

    /** `answer` in the source; the worker count has been raised already. */
    method GiveAnswer(r: Request) returns (a: Answer)
      modifies this
      ensures IsStep(old(Value()).(alive := old(numWorkersAlive) - r.numThreads), dir, r, a, Value())
    {
      if !connected {
        return Nothing;
      }
      var t := TaskOf(r);
      if t !in locality {
        locality := locality[t := dir(r.url)];
        finish := finish[t := 0];
      }
      ghost var b := Browsed(old(Value()), dir, t);
      assert Value() == b;
      var loc := WithHost(locality[t], r.host);
      var selected := r.host;
      if loc[r.host] == {} {
        var isFinish := true;
        isFinish, selected := FindUnfinishedHost(loc);
        if isFinish {
          finish := finish[t := (if t in finish then finish[t] else 0) + 1];
          if finish[t] == numWorkersAlive {
            locality := locality - {t};
          } else {
            locality := locality[t := loc];
          }
          return Nothing;
        }
      }
      var here := loc[selected];
      assert (forall x :: x !in here) ==> here == {};
      var block :| block in here;
      var cleared := EraseReplicas(loc, block);
      locality := locality[t := cleared];
      return Assigned(block);
    }
  }

  /* ----- Runs ----- */

  predicate Initial(s: Assigner) {
    s.connected && s.locality == map[] && s.finish == map[] && s.alive == 0
  }

  /** A run against a fixed directory listing; the asking processes may name any number of
      threads. */
  ghost predicate IsRun(states: seq<Assigner>, dir: Url -> Locality, rs: seq<Request>, answers: seq<Answer>) {
    && |states| == |rs| + 1 && |answers| == |rs|
    && Initial(states[0])
    && forall i :: 0 <= i < |rs| ==> IsStep(states[i], dir, rs[i], answers[i], states[i + 1])
  }

  function CountFor(rs: seq<Request>, n: nat, t: Task): nat
    requires n <= |rs|
  {
    if n == 0 then 0 else CountFor(rs, n - 1, t) + if TaskOf(rs[n - 1]) == t then 1 else 0
  }

  /** The threads named by the first `n` requests, of whatever task. */
  function Threads(rs: seq<Request>, n: nat): int
    requires n <= |rs|
  {
    if n == 0 then 0 else Threads(rs, n - 1) + rs[n - 1].numThreads
  }

  predicate IsRefusal(rs: seq<Request>, answers: seq<Answer>, i: nat, t: Task)
    requires i < |rs| == |answers|
  {
    TaskOf(rs[i]) == t && answers[i].Nothing?
  }

  /** How many of the first `n` requests were turned away for task `t`. */
  function Refused(rs: seq<Request>, answers: seq<Answer>, n: nat, t: Task): nat
    requires n <= |rs| == |answers|
  {
    if n == 0 then 0 else Refused(rs, answers, n - 1, t) + if IsRefusal(rs, answers, n - 1, t) then 1 else 0
  }

  /** The blocks issued to task `t` by the first `n` requests. */
  function Issued(rs: seq<Request>, answers: seq<Answer>, n: nat, t: Task): set<Block>
    requires n <= |rs| == |answers|
  {
    if n == 0 then {}
    else Issued(rs, answers, n - 1, t) +
         if TaskOf(rs[n - 1]) == t && answers[n - 1].Assigned? then {answers[n - 1].block} else {}
  }

  /** Request `i` is a refusal that makes the refusals equal to the threads so far. */
  predicate Meets(rs: seq<Request>, answers: seq<Answer>, i: nat, t: Task)
    requires i < |rs| == |answers|
  {
    IsRefusal(rs, answers, i, t) && Refused(rs, answers, i + 1, t) == Threads(rs, i + 1)
  }

  ghost predicate NeverMeets(rs: seq<Request>, answers: seq<Answer>, n: nat, t: Task)
    requires n <= |rs| == |answers|
  {
    forall i :: 0 <= i < n ==> !Meets(rs, answers, i, t)
  }

  /** As long as the counter has not met the threads: a task that has been asked for is
      tracked, what remains is what has not been issued, and the counter counts refusals. */
  ghost predicate TaskInv(s: Assigner, dir: Url -> Locality, rs: seq<Request>, answers: seq<Answer>, n: nat, t: Task)
    requires n <= |rs| == |answers|
  {
    && (t in s.locality <==> CountFor(rs, n, t) > 0)
    && (forall b :: b in Issued(rs, answers, n, t) ==> Has(dir(t.url), b))
    && (t in s.locality ==>
          && (forall b :: Has(s.locality[t], b) <==> Has(dir(t.url), b) && b !in Issued(rs, answers, n, t))
          && t in s.finish && s.finish[t] == Refused(rs, answers, n, t))
    && (t !in s.locality ==> Issued(rs, answers, n, t) == {} && Refused(rs, answers, n, t) == 0)
  }

  lemma {:induction false} HasWithHost(loc: Locality, host: Host, b: Block)
    ensures Has(WithHost(loc, host), b) <==> Has(loc, b)
  {
    if Has(loc, b) {
      var h :| h in loc && b in loc[h];
      assert b in WithHost(loc, host)[h];
    }
    if Has(WithHost(loc, host), b) {
      var h :| h in WithHost(loc, host) && b in WithHost(loc, host)[h];
      assert h in loc && b in loc[h];
    }
  }

  lemma {:induction false} HasRemoved(loc: Locality, x: Block, b: Block)
    ensures Has(RemoveBlock(loc, x), b) <==> Has(loc, b) && b != x
  {
    if Has(loc, b) && b != x {
      var h :| h in loc && b in loc[h];
      assert b in RemoveBlock(loc, x)[h];
    }
    if Has(RemoveBlock(loc, x), b) {
      var h :| h in RemoveBlock(loc, x) && b in RemoveBlock(loc, x)[h];
      assert h in loc && b in loc[h];
    }
  }

  lemma {:induction false} EmptyIffNone(loc: Locality)
    ensures AllEmpty(loc) <==> forall b :: !Has(loc, b)
  {
    if forall b :: !Has(loc, b) {
      forall h | h in loc ensures loc[h] == {} {
        forall b | b in loc[h] ensures false {
          assert Has(loc, b);
        }
      }
    }
  }

  lemma {:induction false} RunAlive(states: seq<Assigner>, dir: Url -> Locality, rs: seq<Request>, answers: seq<Answer>, n: nat)
    requires IsRun(states, dir, rs, answers) && n <= |rs|
    ensures states[n].connected && states[n].alive == Threads(rs, n)
  {
    if n > 0 {
      RunAlive(states, dir, rs, answers, n - 1);
      assert IsStep(states[n - 1], dir, rs[n - 1], answers[n - 1], states[n]);
    }
  }

  /** A request for another task leaves this one alone. */
  lemma {:induction false} OtherTaskInv(s: Assigner, dir: Url -> Locality, rs: seq<Request>, answers: seq<Answer>, n: nat, t: Task, s': Assigner)
    requires 0 < n <= |rs| == |answers| && TaskInv(s, dir, rs, answers, n - 1, t)
    requires IsStep(s, dir, rs[n - 1], answers[n - 1], s') && TaskOf(rs[n - 1]) != t
    ensures TaskInv(s', dir, rs, answers, n, t)
  {
    assert t in s'.locality <==> t in s.locality;
    assert t in s.locality ==> s'.locality[t] == s.locality[t];
  }

  /** What a request of this task finds on the shelves. */
  lemma {:induction false} Shelves(s: Assigner, dir: Url -> Locality, rs: seq<Request>, answers: seq<Answer>, n: nat, t: Task, host: Host, b: Block)
    requires n <= |rs| == |answers| && TaskInv(s, dir, rs, answers, n, t)
    ensures t in Browsed(s, dir, t).locality
    ensures Has(WithHost(Browsed(s, dir, t).locality[t], host), b) <==> Has(dir(t.url), b) && b !in Issued(rs, answers, n, t)
  {
    HasWithHost(Browsed(s, dir, t).locality[t], host, b);
  }

  /** A request of this task that receives a block. */
  lemma {:induction false} AssignedInv(s: Assigner, dir: Url -> Locality, rs: seq<Request>, answers: seq<Answer>, n: nat, t: Task, s': Assigner)
    requires 0 < n <= |rs| == |answers| && TaskInv(s, dir, rs, answers, n - 1, t) && s.connected
    requires IsStep(s, dir, rs[n - 1], answers[n - 1], s') && TaskOf(rs[n - 1]) == t
    requires answers[n - 1].Assigned?
    ensures answers[n - 1].block !in Issued(rs, answers, n - 1, t)
    ensures TaskInv(s', dir, rs, answers, n, t)
  {
    var r, x := rs[n - 1], answers[n - 1].block;
    var loc := WithHost(Browsed(s, dir, t).locality[t], r.host);
    forall b
      ensures Has(loc, b) <==> Has(dir(t.url), b) && b !in Issued(rs, answers, n - 1, t)
      ensures Has(RemoveBlock(loc, x), b) <==> Has(loc, b) && b != x
    {
      Shelves(s, dir, rs, answers, n - 1, t, r.host, b);
      HasRemoved(loc, x, b);
    }
    assert s'.locality[t] == RemoveBlock(loc, x);
  }

  /** A request of this task that is turned away: everything has been issued, and the task is
      forgotten exactly if the counter now meets the threads. */
  lemma {:induction false} NothingInv(s: Assigner, dir: Url -> Locality, rs: seq<Request>, answers: seq<Answer>, n: nat, t: Task, s': Assigner)
    requires 0 < n <= |rs| == |answers| && TaskInv(s, dir, rs, answers, n - 1, t)
    requires s.connected && s.alive == Threads(rs, n - 1)
    requires IsStep(s, dir, rs[n - 1], answers[n - 1], s') && IsRefusal(rs, answers, n - 1, t)
    ensures forall b :: Has(dir(t.url), b) ==> b in Issued(rs, answers, n - 1, t)
    ensures t !in s'.locality <==> Meets(rs, answers, n - 1, t)
    ensures !Meets(rs, answers, n - 1, t) ==> TaskInv(s', dir, rs, answers, n, t)
  {
    var r := rs[n - 1];
    var loc := WithHost(Browsed(s, dir, t).locality[t], r.host);
    forall b ensures Has(loc, b) <==> Has(dir(t.url), b) && b !in Issued(rs, answers, n - 1, t) {
      Shelves(s, dir, rs, answers, n - 1, t, r.host, b);
    }
    EmptyIffNone(loc);
    assert FinishOf(Browsed(s, dir, t), t) == Refused(rs, answers, n - 1, t);
    if t in s'.locality {
      assert s'.locality[t] == loc;
    }
  }

  lemma {:induction false} RunTaskInv(states: seq<Assigner>, dir: Url -> Locality, rs: seq<Request>, answers: seq<Answer>, n: nat, t: Task)
    requires IsRun(states, dir, rs, answers) && n <= |rs| && NeverMeets(rs, answers, n, t)
    ensures TaskInv(states[n], dir, rs, answers, n, t)
  {
    if n > 0 {
      RunTaskInv(states, dir, rs, answers, n - 1, t);
      RunAlive(states, dir, rs, answers, n - 1);
      assert IsStep(states[n - 1], dir, rs[n - 1], answers[n - 1], states[n]);
      if TaskOf(rs[n - 1]) != t {
        OtherTaskInv(states[n - 1], dir, rs, answers, n, t, states[n]);
      } else if answers[n - 1].Assigned? {
        AssignedInv(states[n - 1], dir, rs, answers, n, t, states[n]);
      } else {
        NothingInv(states[n - 1], dir, rs, answers, n, t, states[n]);
      }
    }
  }

  lemma {:induction false} AfterRefusal(states: seq<Assigner>, dir: Url -> Locality, rs: seq<Request>, answers: seq<Answer>, n: nat, t: Task)
    requires IsRun(states, dir, rs, answers) && n < |rs| && NeverMeets(rs, answers, n, t) && IsRefusal(rs, answers, n, t)
    ensures forall b :: Has(dir(t.url), b) ==> b in Issued(rs, answers, n, t)
    ensures t !in states[n + 1].locality <==> Meets(rs, answers, n, t)
    ensures !Meets(rs, answers, n, t) ==> TaskInv(states[n + 1], dir, rs, answers, n + 1, t)
  {
    RunTaskInv(states, dir, rs, answers, n, t);
    RunAlive(states, dir, rs, answers, n);
    assert IsStep(states[n], dir, rs[n], answers[n], states[n + 1]);
    NothingInv(states[n], dir, rs, answers, n + 1, t, states[n + 1]);
  }

  /* ----- When a url is remembered ----- */

  /** A task that has been asked for is tracked at every point up to `n`. */
  ghost predicate NeverForgotten(states: seq<Assigner>, rs: seq<Request>, n: nat, t: Task)
    requires n <= |rs| < |states|
  {
    forall i :: 0 <= i <= n && CountFor(rs, i, t) > 0 ==> t in states[i].locality
  }

  /** The first meeting, if there is one. */
  lemma {:induction false} FirstMeeting(rs: seq<Request>, answers: seq<Answer>, n: nat, t: Task) returns (i: nat)
    requires n <= |rs| == |answers| && !NeverMeets(rs, answers, n, t)
    ensures i < n && Meets(rs, answers, i, t) && NeverMeets(rs, answers, i, t)
  {
    i :| 0 <= i < n && Meets(rs, answers, i, t);
    if !NeverMeets(rs, answers, i, t) {
      i := FirstMeeting(rs, answers, i, t);
    }
  }

  /** EXACT CONDITION. In every run, whatever thread counts the requests name: a url once
      browsed for a task is never forgotten, and so never browsed again, if and only if no
      refusal makes the number of refusals equal to the number of threads named so far. */
  lemma {:induction false} NeverForgottenIff(states: seq<Assigner>, dir: Url -> Locality, rs: seq<Request>, answers: seq<Answer>, n: nat, t: Task)
    requires IsRun(states, dir, rs, answers) && n <= |rs|
    ensures NeverForgotten(states, rs, n, t) <==> NeverMeets(rs, answers, n, t)
  {
    if NeverMeets(rs, answers, n, t) {
      forall i | 0 <= i <= n && CountFor(rs, i, t) > 0 ensures t in states[i].locality {
        RunTaskInv(states, dir, rs, answers, i, t);
      }
    } else {
      var i := FirstMeeting(rs, answers, n, t);
      AfterRefusal(states, dir, rs, answers, i, t);
      assert CountFor(rs, i + 1, t) > 0;
    }
  }

  /* ----- Exactly once ----- */

  lemma {:induction false} IssuedGrows(rs: seq<Request>, answers: seq<Answer>, i: nat, n: nat, t: Task)
    requires i < n <= |rs| == |answers| && TaskOf(rs[i]) == t && answers[i].Assigned?
    ensures answers[i].block in Issued(rs, answers, n, t)
    decreases n
  {
    if i < n - 1 {
      IssuedGrows(rs, answers, i, n - 1, t);
    }
  }

  /** As long as the url is remembered: a block handed out is one of the url's, and was not
      handed out to the task before. */
  lemma {:induction false} AssignedIsFresh(states: seq<Assigner>, dir: Url -> Locality, rs: seq<Request>, answers: seq<Answer>, j: nat)
    requires IsRun(states, dir, rs, answers) && j < |rs| && answers[j].Assigned?
    requires NeverMeets(rs, answers, j, TaskOf(rs[j]))
    ensures answers[j].block !in Issued(rs, answers, j, TaskOf(rs[j])) && Has(dir(rs[j].url), answers[j].block)
  {
    var t := TaskOf(rs[j]);
    RunTaskInv(states, dir, rs, answers, j, t);
    RunAlive(states, dir, rs, answers, j);
    assert IsStep(states[j], dir, rs[j], answers[j], states[j + 1]);
    Shelves(states[j], dir, rs, answers, j, t, rs[j].host, answers[j].block);
  }

  lemma {:induction false} RefusalMeansAllIssued(states: seq<Assigner>, dir: Url -> Locality, rs: seq<Request>, answers: seq<Answer>, n: nat, b: Block)
    requires IsRun(states, dir, rs, answers) && n < |rs| && answers[n].Nothing? && Has(dir(rs[n].url), b)
    requires NeverMeets(rs, answers, n, TaskOf(rs[n]))
    ensures b in Issued(rs, answers, n, TaskOf(rs[n]))
  {
    AfterRefusal(states, dir, rs, answers, n, TaskOf(rs[n]));
  }

  /** Every asking process has at least one thread. */
  predicate HaveThreads(rs: seq<Request>) {
    forall i :: 0 <= i < |rs| ==> rs[i].numThreads >= 1
  }

  lemma {:induction false} CountsAreBounded(rs: seq<Request>, answers: seq<Answer>, n: nat, t: Task)
    requires n <= |rs| == |answers| && HaveThreads(rs)
    ensures Refused(rs, answers, n, t) + |Issued(rs, answers, n, t)| <= n <= Threads(rs, n)
  {
    if n > 0 {
      CountsAreBounded(rs, answers, n - 1, t);
    }
  }

  /** If every process has a thread and the url has a block, the refusals stay below the
      threads: the requests that were served are among the rest. */
  lemma {:induction false} ThreadsPreventMeeting(states: seq<Assigner>, dir: Url -> Locality, rs: seq<Request>, answers: seq<Answer>, n: nat, t: Task)
    requires IsRun(states, dir, rs, answers) && n <= |rs| && HaveThreads(rs) && !AllEmpty(dir(t.url))
    ensures NeverMeets(rs, answers, n, t)
    ensures 0 < n && IsRefusal(rs, answers, n - 1, t) ==> Refused(rs, answers, n, t) < Threads(rs, n)
  {
    if n > 0 {
      ThreadsPreventMeeting(states, dir, rs, answers, n - 1, t);
      if IsRefusal(rs, answers, n - 1, t) {
        EmptyIffNone(dir(t.url));
        var b :| Has(dir(t.url), b);
        RefusalMeansAllIssued(states, dir, rs, answers, n - 1, b);
        CountsAreBounded(rs, answers, n - 1, t);
        assert |Issued(rs, answers, n - 1, t)| > 0;
      }
    }
  }

  /** A url without blocks yields none, however often it is browsed. */
  lemma {:induction false} EmptyUrlYieldsNothing(states: seq<Assigner>, dir: Url -> Locality, rs: seq<Request>, answers: seq<Answer>, n: nat, t: Task)
    requires IsRun(states, dir, rs, answers) && n <= |rs| && AllEmpty(dir(t.url))
    ensures t in states[n].locality ==> AllEmpty(states[n].locality[t])
    ensures 0 < n && TaskOf(rs[n - 1]) == t ==> answers[n - 1].Nothing?
  {
    if n > 0 {
      EmptyUrlYieldsNothing(states, dir, rs, answers, n - 1, t);
      RunAlive(states, dir, rs, answers, n - 1);
      assert IsStep(states[n - 1], dir, rs[n - 1], answers[n - 1], states[n]);
    }
  }

  /** NO BLOCK TWICE. In every run whose processes have at least one thread each, no two
      requests of a task receive the same block, although every block has replicas on
      several hosts; and only blocks of the url are issued. */
  lemma {:induction false} NoBlockIsIssuedTwice(states: seq<Assigner>, dir: Url -> Locality, rs: seq<Request>, answers: seq<Answer>, i: nat, j: nat)
    requires IsRun(states, dir, rs, answers) && HaveThreads(rs)
    requires i < j < |rs| && TaskOf(rs[i]) == TaskOf(rs[j]) && answers[i].Assigned? && answers[j].Assigned?
    ensures answers[i].block != answers[j].block && Has(dir(rs[j].url), answers[j].block)
  {
    var t := TaskOf(rs[j]);
    if AllEmpty(dir(t.url)) {
      EmptyUrlYieldsNothing(states, dir, rs, answers, j + 1, t);
    } else {
      ThreadsPreventMeeting(states, dir, rs, answers, j, t);
      AssignedIsFresh(states, dir, rs, answers, j);
      IssuedGrows(rs, answers, i, j, t);
    }
  }

  /** NOTHING LEFT BEHIND. An empty answer means that every block of the url has been issued
      to the task. */
  lemma {:induction false} EmptyAnswerMeansAllIssued(states: seq<Assigner>, dir: Url -> Locality, rs: seq<Request>, answers: seq<Answer>, n: nat, b: Block)
    requires IsRun(states, dir, rs, answers) && HaveThreads(rs) && n < |rs| && answers[n].Nothing?
    requires Has(dir(rs[n].url), b)
    ensures b in Issued(rs, answers, n, TaskOf(rs[n]))
  {
    EmptyIffNone(dir(rs[n].url));
    ThreadsPreventMeeting(states, dir, rs, answers, n, TaskOf(rs[n]));
    RefusalMeansAllIssued(states, dir, rs, answers, n, b);
  }

  /** NEVER BROWSED AGAIN. If the url has a block and every process a thread, the counter of
      refusals stays below the worker count after every refusal, and a url once browsed
      stays known. */
  lemma {:induction false} BrowsedOnce(states: seq<Assigner>, dir: Url -> Locality, rs: seq<Request>, answers: seq<Answer>, n: nat, t: Task)
    requires IsRun(states, dir, rs, answers) && HaveThreads(rs) && n <= |rs| && !AllEmpty(dir(t.url))
    ensures NeverForgotten(states, rs, n, t)
    ensures 0 < n && IsRefusal(rs, answers, n - 1, t) ==> t in states[n].finish && states[n].finish[t] < states[n].alive
  {
    ThreadsPreventMeeting(states, dir, rs, answers, n, t);
    NeverForgottenIff(states, dir, rs, answers, n, t);
    if 0 < n && IsRefusal(rs, answers, n - 1, t) {
      RunAlive(states, dir, rs, answers, n);
      AfterRefusal(states, dir, rs, answers, n - 1, t);
    }
  }

  /* ----- Local blocks first ----- */

  /** The blocks that a host has, none if it is not listed. */
  function At(loc: Locality, host: Host): set<Block> {
    if host in loc then loc[host] else {}
  }

  /** What is left on every single host is what it has less what was issued. */
  ghost predicate ShelvesOk(loc: Locality, all: Locality, issued: set<Block>) {
    forall h :: At(loc, h) == At(all, h) - issued
  }

  lemma {:induction false} ShelvesAfter(loc: Locality, all: Locality, issued: set<Block>, host: Host, x: Block)
    requires ShelvesOk(loc, all, issued)
    ensures ShelvesOk(WithHost(loc, host), all, issued)
    ensures ShelvesOk(RemoveBlock(WithHost(loc, host), x), all, issued + {x})
  {
    forall h ensures At(WithHost(loc, host), h) == At(loc, h) {
    }
    forall h ensures At(RemoveBlock(WithHost(loc, host), x), h) == At(all, h) - (issued + {x}) {
      assert At(loc, h) == At(all, h) - issued;
      assert At(WithHost(loc, host), h) == At(loc, h);
    }
  }

  lemma {:induction false} ShelvesStep(s: Assigner, dir: Url -> Locality, r: Request, a: Answer, s': Assigner, issued: set<Block>)
    requires s.connected && IsStep(s, dir, r, a, s') && TaskOf(r) in s'.locality
    requires ShelvesOk(Browsed(s, dir, TaskOf(r)).locality[TaskOf(r)], dir(r.url), issued)
    ensures ShelvesOk(s'.locality[TaskOf(r)], dir(r.url), issued + if a.Assigned? then {a.block} else {})
  {
    var loc := Browsed(s, dir, TaskOf(r)).locality[TaskOf(r)];
    ShelvesAfter(loc, dir(r.url), issued, r.host, if a.Assigned? then a.block else Block("", 0));
    assert issued + {} == issued;
  }

  lemma {:induction false} StaysTracked(states: seq<Assigner>, dir: Url -> Locality, rs: seq<Request>, answers: seq<Answer>, n: nat, t: Task)
    requires IsRun(states, dir, rs, answers) && 0 < n <= |rs| && NeverMeets(rs, answers, n, t) && TaskOf(rs[n - 1]) == t
    ensures t in states[n].locality
  {
    RunTaskInv(states, dir, rs, answers, n, t);
  }

  lemma {:induction false} OtherShelves(s: Assigner, dir: Url -> Locality, r: Request, a: Answer, s': Assigner, t: Task)
    requires IsStep(s, dir, r, a, s') && TaskOf(r) != t
    ensures Browsed(s', dir, t).locality[t] == Browsed(s, dir, t).locality[t]
  {
  }

  /** What is left for the task, browsing the url if that has not happened yet. */
  ghost predicate TaskShelvesOk(s: Assigner, dir: Url -> Locality, t: Task, issued: set<Block>) {
    t in Browsed(s, dir, t).locality && ShelvesOk(Browsed(s, dir, t).locality[t], dir(t.url), issued)
  }

  lemma {:induction false} ShelvesStart(s: Assigner, dir: Url -> Locality, t: Task)
    requires t !in s.locality
    ensures TaskShelvesOk(s, dir, t, {})
  {
    forall h ensures At(dir(t.url), h) == At(dir(t.url), h) - {} {
    }
  }

  lemma {:induction false} ShelvesNext(s: Assigner, dir: Url -> Locality, r: Request, a: Answer, s': Assigner, t: Task, issued: set<Block>)
    requires s.connected && IsStep(s, dir, r, a, s') && TaskShelvesOk(s, dir, t, issued)
    requires TaskOf(r) == t ==> t in s'.locality
    ensures TaskShelvesOk(s', dir, t, issued + if TaskOf(r) == t && a.Assigned? then {a.block} else {})
  {
    assert issued + {} == issued;
    if TaskOf(r) == t {
      ShelvesStep(s, dir, r, a, s', issued);
    } else {
      OtherShelves(s, dir, r, a, s', t);
    }
  }

  lemma {:induction false} RunShelves(states: seq<Assigner>, dir: Url -> Locality, rs: seq<Request>, answers: seq<Answer>, n: nat, t: Task)
    requires IsRun(states, dir, rs, answers) && n <= |rs| && NeverMeets(rs, answers, n, t)
    ensures TaskShelvesOk(states[n], dir, t, Issued(rs, answers, n, t))
  {
    if n == 0 {
      ShelvesStart(states[0], dir, t);
    } else {
      RunShelves(states, dir, rs, answers, n - 1, t);
      RunAlive(states, dir, rs, answers, n - 1);
      assert IsStep(states[n - 1], dir, rs[n - 1], answers[n - 1], states[n]);
      if TaskOf(rs[n - 1]) == t {
        StaysTracked(states, dir, rs, answers, n, t);
      }
      ShelvesNext(states[n - 1], dir, rs[n - 1], answers[n - 1], states[n], t, Issued(rs, answers, n - 1, t));
    }
  }

  /** LOCAL FIRST. In every run, as long as the url is remembered: if the asking host itself
      stores a block that was not issued yet, the request is served, and with a block that
      the host stores. */
  lemma {:induction false} LocalBlocksFirst(states: seq<Assigner>, dir: Url -> Locality, rs: seq<Request>, answers: seq<Answer>, n: nat, b: Block)
    requires IsRun(states, dir, rs, answers) && n < |rs| && NeverMeets(rs, answers, n, TaskOf(rs[n]))
    requires b in At(dir(rs[n].url), rs[n].host) && b !in Issued(rs, answers, n, TaskOf(rs[n]))
    ensures answers[n].Assigned? && answers[n].block in At(dir(rs[n].url), rs[n].host)
  {
    var t, r := TaskOf(rs[n]), rs[n];
    RunShelves(states, dir, rs, answers, n, t);
    RunAlive(states, dir, rs, answers, n);
    assert IsStep(states[n], dir, r, answers[n], states[n + 1]);
    var loc, issued := Browsed(states[n], dir, t).locality[t], Issued(rs, answers, n, t);
    ShelvesAfter(loc, dir(t.url), issued, r.host, b);
    assert At(WithHost(loc, r.host), r.host) == At(dir(t.url), r.host) - issued;
    assert b in WithHost(loc, r.host)[r.host];
  }

  /* ----- When a block can be issued again ----- */

  lemma {:induction false} BrowsedAgain(s: Assigner, dir: Url -> Locality, r: Request, b: Block)
    requires s.connected && TaskOf(r) !in s.locality && r.host in dir(r.url) && b in dir(r.url)[r.host]
    ensures exists s' :: IsStep(s, dir, r, Assigned(b), s')
  {
    var t := TaskOf(r);
    var browsed := Browsed(s, dir, t).(alive := s.alive + r.numThreads);
    var loc := WithHost(browsed.locality[t], r.host);
    assert loc == dir(r.url) && Has(loc, b);
    assert IsStep(s, dir, r, Assigned(b), browsed.(locality := browsed.locality[t := RemoveBlock(loc, b)]));
  }

  lemma {:induction false} NotOnTheShelves(s: Assigner, dir: Url -> Locality, r: Request, b: Block, s': Assigner)
    requires s.connected && TaskOf(r) in s.locality && !Has(WithHost(s.locality[TaskOf(r)], r.host), b)
    ensures !IsStep(s, dir, r, Assigned(b), s')
  {
  }

  /** REISSUE. Take any run that ends with a refusal of `t`, the url having been remembered
      until then, and any next request of the task from a host that stores block `b`. The
      block was issued before; it can be issued to that request again if and only if the
      refusal made the refusals equal to the threads. */
  lemma {:induction false} ReissueIffMeets(states: seq<Assigner>, dir: Url -> Locality, rs: seq<Request>, answers: seq<Answer>, t: Task,
                                           next: Request, b: Block)
    requires IsRun(states, dir, rs, answers) && |rs| > 0 && IsRefusal(rs, answers, |rs| - 1, t)
    requires NeverMeets(rs, answers, |rs| - 1, t)
    requires TaskOf(next) == t && next.host in dir(t.url) && b in dir(t.url)[next.host]
    ensures b in Issued(rs, answers, |rs|, t)
    ensures (exists s' :: IsStep(states[|rs|], dir, next, Assigned(b), s')) <==> Meets(rs, answers, |rs| - 1, t)
  {
    var n := |rs| - 1;
    assert Has(dir(t.url), b);
    RefusalMeansAllIssued(states, dir, rs, answers, n, b);
    RunAlive(states, dir, rs, answers, n + 1);
    AfterRefusal(states, dir, rs, answers, n, t);
    var s := states[n + 1];
    if Meets(rs, answers, n, t) {
      BrowsedAgain(s, dir, next, b);
    } else {
      Shelves(s, dir, rs, answers, n + 1, t, next.host, b);
      assert Browsed(s, dir, t) == s;
      forall s' ensures !IsStep(s, dir, next, Assigned(b), s') {
        NotOnTheShelves(s, dir, next, b, s');
      }
    }
  }

  lemma {:induction false} ExtendRun(states: seq<Assigner>, dir: Url -> Locality, rs: seq<Request>, answers: seq<Answer>,
                                     r: Request, a: Answer, s': Assigner)
      returns (states': seq<Assigner>, rs': seq<Request>, answers': seq<Answer>)
    requires IsRun(states, dir, rs, answers) && IsStep(states[|rs|], dir, r, a, s')
    ensures states' == states + [s'] && rs' == rs + [r] && answers' == answers + [a]
    ensures IsRun(states', dir, rs', answers')
  {
    states', rs', answers' := states + [s'], rs + [r], answers + [a];
    forall i | 0 <= i < |rs'| ensures IsStep(states'[i], dir, rs'[i], answers'[i], states'[i + 1]) {
      assert i < |rs| ==> IsStep(states[i], dir, rs[i], answers[i], states[i + 1]);
    }
  }

  lemma {:induction false} RemoveOnly(host: Host, b: Block)
    ensures RemoveBlock(map[host := {b}], b) == map[host := {}]
  {
    var left := RemoveBlock(map[host := {b}], b);
    assert left.Keys == {host};
    assert left[host] == {b} - {b} == {};
  }

  lemma {:induction false} FreshIssue(s: Assigner, dir: Url -> Locality, r: Request, b: Block, s': Assigner)
    requires s.connected && s.locality == map[] && dir(r.url) == map[r.host := {b}]
    requires s' == Assigner(true, map[TaskOf(r) := map[r.host := {}]], s.finish[TaskOf(r) := 0], s.alive + r.numThreads)
    ensures IsStep(s, dir, r, Assigned(b), s')
  {
    var t := TaskOf(r);
    var browsed := Browsed(s, dir, t).(alive := s.alive + r.numThreads);
    var loc := WithHost(browsed.locality[t], r.host);
    assert loc == dir(r.url) && b in loc[r.host] && Has(loc, b);
    RemoveOnly(r.host, b);
    assert browsed.locality[t := RemoveBlock(loc, b)] == s'.locality;
  }

  lemma {:induction false} LastRefusal(s: Assigner, dir: Url -> Locality, r: Request, s': Assigner)
    requires s == Assigner(true, map[TaskOf(r) := map[r.host := {}]], map[TaskOf(r) := 0], 1) && r.numThreads == 0
    requires s' == Assigner(true, map[], map[TaskOf(r) := 1], 1)
    ensures IsStep(s, dir, r, Nothing, s')
  {
    assert s.locality - {TaskOf(r)} == map[];
    assert s.finish[TaskOf(r) := 1] == s'.finish;
  }

  /** Without the thread counts the guarantee fails: one block, three requests that name 1, 0
      and 1 threads, and the block is issued twice. */
  lemma {:induction false} BlockIssuedTwice(dir: Url -> Locality, host: Host, url: Url, b: Block)
      returns (states: seq<Assigner>, rs: seq<Request>, answers: seq<Answer>)
    requires dir(url) == map[host := {b}]
    ensures IsRun(states, dir, rs, answers)
    ensures rs == [Request(host, url, 0, 1), Request(host, url, 0, 0), Request(host, url, 0, 1)]
    ensures answers == [Assigned(b), Nothing, Assigned(b)]
  {
    var t, one, none := Task(0, url), Request(host, url, 0, 1), Request(host, url, 0, 0);
    var empty: Locality := map[host := {}];
    var s0 := Assigner(true, map[], map[], 0);
    var s1 := Assigner(true, map[t := empty], map[t := 0], 1);
    var s2 := Assigner(true, map[], map[t := 1], 1);
    var s3 := Assigner(true, map[t := empty], map[t := 0], 2);
    states, rs, answers := [s0], [], [];
    FreshIssue(s0, dir, one, b, s1);
    states, rs, answers := ExtendRun(states, dir, rs, answers, one, Assigned(b), s1);
    LastRefusal(s1, dir, none, s2);
    states, rs, answers := ExtendRun(states, dir, rs, answers, none, Nothing, s2);
    FreshIssue(s2, dir, one, b, s3);
    states, rs, answers := ExtendRun(states, dir, rs, answers, one, Assigned(b), s3);
  }
}
