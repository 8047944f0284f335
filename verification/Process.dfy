/** poll.go: the two bodies of the poll endpoint (RFC 8936, section 2.4). */
module PollWire {
  import opened Wrappers

  datatype SetErr = SetErr(code: string, description: string)

  datatype Request = Request(ack: seq<string>, setErrs: map<string, SetErr>, maxEvents: Option<int>)

  datatype Response = Response(sets: map<string, string>, moreAvailable: bool)
}

/** receiver/poller.go: deliverOne, and the serial and parallel forms of process. */
module Process {
  import opened Collections
  import opened PollWire

  const INVALID_SET := "invalid_set"
  const DELIVERY_FAILED := "delivery_failed"

  /** What the verifier and, behind it, the Sink say about one SET. */
  datatype Verdict =
    | Rejected(why: string)   // the verifier refused the JWS; the Sink is not called
    | Accepted                // the Sink returned nil
    | Permanent(why: string)  // the Sink's error wraps ErrPermanent
    | Transient(why: string)  // any other Sink error
  {
    /** The Sink is done with the SET: it took it, or will never take it. */
    predicate Finishes() { Accepted? || Permanent? }

    predicate ReachesSink() { !Rejected? }
  }

  /** One entry of a poll response together with the verdict it will meet. */
  datatype Job = Job(jti: string, verdict: Verdict)

  datatype Report = Report(ack: bool, code: string, description: string)

  /** What the Poller owes the Transmitter on its next request. */
  datatype Carry = Carry(ack: seq<string>, setErrs: map<string, SetErr>)

  const NOTHING := Carry([], map[])

  function DeliverOne(v: Verdict): (r: Report)
    ensures r.ack <==> v.Finishes()
    ensures r.code == "" <==> v.Accepted?
  {
    match v
    case Rejected(why) => Report(false, INVALID_SET, why)
    case Permanent(why) => Report(true, DELIVERY_FAILED, why)
    case Transient(why) => Report(false, DELIVERY_FAILED, why)
    case Accepted => Report(true, "", "")
  }

  /** Adding one report to the accumulator; under the mutex in the parallel form. */
  function Record(c: Carry, jti: string, r: Report): Carry {
    Carry(if r.ack then c.ack + [jti] else c.ack,
          if r.code != "" then c.setErrs[jti := SetErr(r.code, r.description)] else c.setErrs)
  }

  /** What processing the jobs in this order leaves for the next request. */
  function Outcome(jobs: seq<Job>): Carry {
    if jobs == [] then NOTHING
    else
      var last := jobs[|jobs| - 1];
      Record(Outcome(jobs[..|jobs| - 1]), last.jti, DeliverOne(last.verdict))
  }

  /** The jobs come from a JSON object keyed by jti. */
  ghost predicate DistinctJtis(jobs: seq<Job>) {
    forall i, j | 0 <= i < j < |jobs| :: jobs[i].jti != jobs[j].jti
  }

  ghost predicate Reordered(a: seq<Job>, b: seq<Job>) {
    multiset(a) == multiset(b)
  }

  /** The loop of process when parallelism is 1. */
  method ProcessSerially(jobs: seq<Job>) returns (c: Carry)
    ensures c == Outcome(jobs)
  {
    var ack, setErrs := [], map[];
    for i := 0 to |jobs|
      invariant Carry(ack, setErrs) == Outcome(jobs[..i])
    {
      assert jobs[..i + 1][..i] == jobs[..i];
      var r := DeliverOne(jobs[i].verdict);
      if r.ack {
        ack := ack + [jobs[i].jti];
      }
      if r.code != "" {
        setErrs := setErrs[jobs[i].jti := SetErr(r.code, r.description)];
      }
    }
    assert jobs[..|jobs|] == jobs;
    c := Carry(ack, setErrs);
  }

  lemma {:induction false} AcksAreExact(jobs: seq<Job>)
    requires DistinctJtis(jobs)
    ensures Distinct(Outcome(jobs).ack)
    ensures forall j ::
              j in Outcome(jobs).ack <==> exists k | 0 <= k < |jobs| :: jobs[k].jti == j && jobs[k].verdict.Finishes()
  {
    if jobs != [] {
      var init, last := jobs[..|jobs| - 1], jobs[|jobs| - 1];
      AcksAreExact(init);
      assert forall k | 0 <= k < |init| :: init[k] == jobs[k];
      assert last.jti !in Outcome(init).ack;
      forall j
        ensures j in Outcome(jobs).ack <==> exists k | 0 <= k < |jobs| :: jobs[k].jti == j && jobs[k].verdict.Finishes()
      {
        assert j in Outcome(jobs).ack <==> j in Outcome(init).ack || (last.verdict.Finishes() && j == last.jti);
      }
    }
  }

  lemma {:induction false} LastErr(jobs: seq<Job>)
    requires jobs != []
    ensures var before, last := Outcome(jobs[..|jobs| - 1]).setErrs, jobs[|jobs| - 1];
      Outcome(jobs).setErrs ==
      if last.verdict.Accepted? then before
      else before[last.jti := SetErr(if last.verdict.Rejected? then INVALID_SET else DELIVERY_FAILED, last.verdict.why)]
  {
  }

  lemma {:induction false} ErrsAreExact(jobs: seq<Job>)
    requires DistinctJtis(jobs)
    ensures forall j ::
              j in Outcome(jobs).setErrs <==>
              exists k | 0 <= k < |jobs| :: jobs[k].jti == j && !jobs[k].verdict.Accepted?
    ensures forall k | 0 <= k < |jobs| && !jobs[k].verdict.Accepted? ::
              Outcome(jobs).setErrs[jobs[k].jti] ==
              SetErr(if jobs[k].verdict.Rejected? then INVALID_SET else DELIVERY_FAILED, jobs[k].verdict.why)
  {
    if jobs != [] {
      var init, last := jobs[..|jobs| - 1], jobs[|jobs| - 1];
      ErrsAreExact(init);
      assert forall k | 0 <= k < |init| :: init[k] == jobs[k];
      assert last.jti !in Outcome(init).setErrs;
      LastErr(jobs);
      hide Outcome, DeliverOne, Record;
    }
  }

  /** Exactly which jtis are acked and which are reported, and with what. Every entry is at least
      one of the two, and only the permanent failures are both. */
  lemma OutcomeIsExact(jobs: seq<Job>)
    requires DistinctJtis(jobs)
    ensures Distinct(Outcome(jobs).ack)
    ensures forall j ::
              j in Outcome(jobs).ack <==> exists k | 0 <= k < |jobs| :: jobs[k].jti == j && jobs[k].verdict.Finishes()
    ensures forall j ::
              j in Outcome(jobs).setErrs <==>
              exists k | 0 <= k < |jobs| :: jobs[k].jti == j && !jobs[k].verdict.Accepted?
    ensures forall k | 0 <= k < |jobs| && !jobs[k].verdict.Accepted? ::
              Outcome(jobs).setErrs[jobs[k].jti] ==
              SetErr(if jobs[k].verdict.Rejected? then INVALID_SET else DELIVERY_FAILED, jobs[k].verdict.why)
  {
    hide Outcome;
    AcksAreExact(jobs);
    ErrsAreExact(jobs);
  }

  /** The jtis of the entries the Sink is done with, in the order of the batch. */
  function FinishedJtis(jobs: seq<Job>): seq<string>
    decreases |jobs|
  {
    if jobs == [] then []
    else
      (if jobs[0].verdict.Accepted? || jobs[0].verdict.Permanent? then [jobs[0].jti] else [])
      + FinishedJtis(jobs[1..])
  }

  lemma {:induction false} FinishedAppend(a: seq<Job>, b: seq<Job>)
    ensures FinishedJtis(a + b) == FinishedJtis(a) + FinishedJtis(b)
    decreases |a|
  {
    if a == [] {
      assert a + b == b;
    } else {
      assert (a + b)[1..] == a[1..] + b;
      FinishedAppend(a[1..], b);
    }
  }

  /** The ack list keeps the order in which the entries were processed. */
  lemma {:induction false} AcksKeepTheOrder(jobs: seq<Job>)
    ensures Outcome(jobs).ack == FinishedJtis(jobs)
    decreases |jobs|
  {
    if jobs != [] {
      var init, last := jobs[..|jobs| - 1], jobs[|jobs| - 1];
      AcksKeepTheOrder(init);
      FinishedAppend(init, [last]);
      assert jobs == init + [last] && [last][1..] == [];
    }
  }

  /** Acks and error reports together cover the batch and overlap in the permanent failures. */
  lemma AckAndErrsPartition(jobs: seq<Job>)
    requires DistinctJtis(jobs)
    ensures Elems(Outcome(jobs).ack) + Outcome(jobs).setErrs.Keys == set job <- jobs :: job.jti
    ensures Elems(Outcome(jobs).ack) * Outcome(jobs).setErrs.Keys == set job <- jobs | job.verdict.Permanent? :: job.jti
  {
    OutcomeIsExact(jobs);
    var c := Outcome(jobs);
    forall j
      ensures j in c.ack || j in c.setErrs <==> exists job :: job in jobs && job.jti == j
      ensures j in c.ack && j in c.setErrs <==> exists job :: job in jobs && job.verdict.Permanent? && job.jti == j
    {
      if job :| job in jobs && job.jti == j {
        var k :| 0 <= k < |jobs| && jobs[k] == job;
        assert j in c.ack <==> jobs[k].verdict.Finishes();
        assert j in c.setErrs <==> !jobs[k].verdict.Accepted?;
      }
    }
  }

  lemma SameOutcomeAt(a: seq<Job>, b: seq<Job>, j: string)
    requires DistinctJtis(a) && DistinctJtis(b) && (forall x :: x in a <==> x in b)
    ensures j in Outcome(a).ack <==> j in Outcome(b).ack
    ensures j in Outcome(a).setErrs <==> j in Outcome(b).setErrs
    ensures j in Outcome(a).setErrs ==> Outcome(a).setErrs[j] == Outcome(b).setErrs[j]
  {
    hide Outcome;
    if k :| 0 <= k < |a| && a[k].jti == j {
      assert a[k] in b;
      var k' :| 0 <= k' < |b| && b[k'] == a[k];
      OutcomeAt(a, k);
      OutcomeAt(b, k');
    } else {
      assert forall k | 0 <= k < |b| :: b[k] in b && b[k] in a;
      OutcomeOfStranger(a, j);
      OutcomeOfStranger(b, j);
    }
  }

  lemma {:induction false} OutcomeAt(jobs: seq<Job>, k: nat)
    requires DistinctJtis(jobs) && k < |jobs|
    ensures jobs[k].jti in Outcome(jobs).ack <==> jobs[k].verdict.Finishes()
    ensures jobs[k].jti in Outcome(jobs).setErrs <==> !jobs[k].verdict.Accepted?
    ensures !jobs[k].verdict.Accepted? ==>
              Outcome(jobs).setErrs[jobs[k].jti] ==
              SetErr(if jobs[k].verdict.Rejected? then INVALID_SET else DELIVERY_FAILED, jobs[k].verdict.why)
  {
    hide Outcome;
    OutcomeIsExact(jobs);
  }

  lemma OutcomeOfStranger(jobs: seq<Job>, j: string)
    requires DistinctJtis(jobs) && forall k | 0 <= k < |jobs| :: jobs[k].jti != j
    ensures j !in Outcome(jobs).ack && j !in Outcome(jobs).setErrs
  {
    hide Outcome;
    OutcomeIsExact(jobs);
  }

  /** Reordering a batch permutes the ack list and leaves the error map as it was. */
  lemma OutcomeOfReordered(a: seq<Job>, b: seq<Job>)
    requires DistinctJtis(a) && Reordered(a, b)
    ensures DistinctJtis(b)
    ensures multiset(Outcome(a).ack) == multiset(Outcome(b).ack)
    ensures Outcome(a).setErrs == Outcome(b).setErrs
  {
    DistinctSurvivesReordering(a, b);
    AcksAreExact(a);
    AcksAreExact(b);
    hide Outcome, DistinctJtis;
    assert forall x :: x in a <==> x in multiset(a);
    assert forall x :: x in b <==> x in multiset(b);
    forall j
      ensures multiset(Outcome(a).ack)[j] == multiset(Outcome(b).ack)[j]
      ensures j in Outcome(a).setErrs <==> j in Outcome(b).setErrs
      ensures j in Outcome(a).setErrs ==> Outcome(a).setErrs[j] == Outcome(b).setErrs[j]
    {
      SameOutcomeAt(a, b, j);
      DistinctCount(Outcome(a).ack, j);
      DistinctCount(Outcome(b).ack, j);
    }
  }

  lemma {:induction false} DistinctCount(s: seq<string>, x: string)
    requires Distinct(s)
    ensures multiset(s)[x] == if x in s then 1 else 0
  {
    if s != [] {
      var init, last := s[..|s| - 1], s[|s| - 1];
      assert s == init + [last];
      DistinctCount(init, x);
    }
  }

  lemma DistinctSurvivesReordering(a: seq<Job>, b: seq<Job>)
    requires DistinctJtis(a) && Reordered(a, b)
    ensures DistinctJtis(b)
  {
    assert |a| == |multiset(a)| == |multiset(b)| == |b|;
    forall i, j | 0 <= i < j < |b|
      ensures b[i].jti != b[j].jti
    {
      assert b[i] in multiset(a) && b[j] in multiset(a);
      var i' :| 0 <= i' < |a| && a[i'] == b[i];
      var j' :| 0 <= j' < |a| && a[j'] == b[j];
      if i' == j' {
        CountTwo(b, i, j);
        CountOne(a, i');
      }
    }
  }

  lemma CountTwo(b: seq<Job>, i: int, j: int)
    requires 0 <= i < j < |b| && b[i] == b[j]
    ensures multiset(b)[b[i]] >= 2
  {
    assert b == b[..j] + [b[j]] + b[j + 1..];
    assert b[i] in b[..j];
  }

  lemma CountOne(a: seq<Job>, i: int)
    requires DistinctJtis(a) && 0 <= i < |a|
    ensures multiset(a)[a[i]] == 1
  {
    assert a == a[..i] + [a[i]] + a[i + 1..];
  }
}

/** receiver/poller.go: the worker pool process starts when parallelism is above 1. */
module WorkerPool {
  import opened Collections
  import opened Process

  datatype Worker =
    | Idle                                // blocked on the jobs channel
    | Holding(job: Job)                   // took an entry, has not called the Sink yet
    | Reporting(job: Job, report: Report) // deliverOne returned; waiting for the mutex

  /** `queue` is what the dispatching loop still has to send. `called` and `committed` are the
      order in which deliverOne ran and in which results were recorded. */
  datatype Pool = Pool(queue: seq<Job>, workers: seq<Worker>, acc: Carry, called: seq<Job>, committed: seq<Job>)

  datatype Move = Take(w: nat) | Call(w: nat) | Commit(w: nat)

  /** The pool process starts: the worker count is capped by the batch. */
  function Start(jobs: seq<Job>, parallelism: int): Pool
    requires parallelism > 1 && jobs != []
  {
    var workers := if parallelism > |jobs| then |jobs| else parallelism;
    Pool(jobs, seq(workers, _ => Idle), NOTHING, [], [])
  }

  predicate Enabled(p: Pool, m: Move) {
    m.w < |p.workers| &&
    match m
    case Take(w) => p.workers[w].Idle? && p.queue != []
    case Call(w) => p.workers[w].Holding?
    case Commit(w) => p.workers[w].Reporting?
  }

  function Apply(p: Pool, m: Move): Pool
    requires Enabled(p, m)
  {
    match m
    case Take(w) =>
      p.(queue := p.queue[1..], workers := p.workers[w := Holding(p.queue[0])])
    case Call(w) =>
      var job := p.workers[w].job;
      p.(workers := p.workers[w := Reporting(job, DeliverOne(job.verdict))], called := p.called + [job])
    case Commit(w) =>
      var Reporting(job, report) := p.workers[w];
      p.(workers := p.workers[w := Idle], acc := Record(p.acc, job.jti, report), committed := p.committed + [job])
  }

  ghost predicate Runs(p: Pool, moves: seq<Move>, q: Pool)
    decreases |moves|
  {
    if moves == [] then p == q
    else Enabled(p, moves[0]) && Runs(Apply(p, moves[0]), moves[1..], q)
  }

  /** wg.Wait returned: everything was sent and every worker is done. */
  predicate Finished(p: Pool) {
    p.queue == [] && forall w <- p.workers :: w.Idle?
  }

  /** Whether a worker has this entry in hand, or in hand with its delivery already made. */
  function InHandOf(w: Worker, calledOnly: bool, job: Job): nat {
    match w
    case Idle => 0
    case Holding(j) => if !calledOnly && j == job then 1 else 0
    case Reporting(j, _) => if j == job then 1 else 0
  }

  function Busy(workers: seq<Worker>, calledOnly: bool, job: Job): nat {
    if workers == [] then 0 else InHandOf(workers[0], calledOnly, job) + Busy(workers[1..], calledOnly, job)
  }

  lemma {:induction false} BusyUpdate(workers: seq<Worker>, w: nat, x: Worker, r: bool, job: Job)
    requires w < |workers|
    ensures Busy(workers[w := x], r, job) + InHandOf(workers[w], r, job) == Busy(workers, r, job) + InHandOf(x, r, job)
  {
    if w == 0 {
      assert workers[w := x][1..] == workers[1..];
    } else {
      assert workers[w := x][1..] == workers[1..][w - 1 := x];
      BusyUpdate(workers[1..], w - 1, x, r, job);
    }
  }

  lemma {:induction false} AllIdle(workers: seq<Worker>, r: bool, job: Job)
    requires forall w <- workers :: w.Idle?
    ensures Busy(workers, r, job) == 0
  {
    if workers != [] {
      AllIdle(workers[1..], r, job);
    }
  }

  lemma CountAppend(s: seq<Job>, x: Job, job: Job)
    ensures multiset(s + [x])[job] == multiset(s)[job] + if x == job then 1 else 0
  {
  }

  ghost predicate JobInv(jobs: seq<Job>, p: Pool, job: Job) {
    && multiset(jobs)[job] == multiset(p.committed)[job] + Busy(p.workers, false, job) + multiset(p.queue)[job]
    && multiset(p.called)[job] == multiset(p.committed)[job] + Busy(p.workers, true, job)
  }

  /** Nothing is lost, duplicated or recorded with somebody else's result. */
  ghost predicate PoolInv(jobs: seq<Job>, p: Pool) {
    && (forall job :: JobInv(jobs, p, job))
    && p.acc == Outcome(p.committed)
    && forall w <- p.workers :: w.Reporting? ==> w.report == DeliverOne(w.job.verdict)
  }

  lemma JobInvHolds(jobs: seq<Job>, p: Pool, m: Move, job: Job)
    requires JobInv(jobs, p, job) && Enabled(p, m)
    ensures JobInv(jobs, Apply(p, m), job)
  {
    hide Busy, Outcome, DeliverOne, Record;
    var q := Apply(p, m);
    BusyUpdate(p.workers, m.w, q.workers[m.w], false, job);
    BusyUpdate(p.workers, m.w, q.workers[m.w], true, job);
    match m {
      case Take(w) =>
        assert p.queue == [p.queue[0]] + q.queue;
      case Call(w) =>
        CountAppend(p.called, p.workers[w].job, job);
      case Commit(w) =>
        CountAppend(p.committed, p.workers[w].job, job);
    }
  }

  lemma PoolInvHolds(jobs: seq<Job>, p: Pool, m: Move)
    requires PoolInv(jobs, p) && Enabled(p, m)
    ensures PoolInv(jobs, Apply(p, m))
  {
    var q := Apply(p, m);
    forall job ensures JobInv(jobs, q, job) {
      JobInvHolds(jobs, p, m, job);
    }
    assert p.workers[m.w] in p.workers;
    assert forall x <- q.workers :: x == q.workers[m.w] || x in p.workers;
    if m.Commit? {
      assert q.committed[..|p.committed|] == p.committed;
    }
  }

  lemma {:induction false} PoolInvAlways(jobs: seq<Job>, p: Pool, moves: seq<Move>, q: Pool)
    requires PoolInv(jobs, p) && Runs(p, moves, q)
    ensures PoolInv(jobs, q)
    decreases |moves|
  {
    if moves != [] {
      PoolInvHolds(jobs, p, moves[0]);
      PoolInvAlways(jobs, Apply(p, moves[0]), moves[1..], q);
    }
  }

  /** At no time are more entries in hand than the parallelism allows, or than there are. */
  lemma {:induction false} NeverMoreInHand(p: Pool, moves: seq<Move>, q: Pool)
    requires Runs(p, moves, q)
    ensures |q.workers| == |p.workers|
    decreases |moves|
  {
    if moves != [] {
      NeverMoreInHand(Apply(p, moves[0]), moves[1..], q);
    }
  }

  lemma ParallelismIsKept(jobs: seq<Job>, parallelism: int, moves: seq<Move>, q: Pool)
    requires parallelism > 1 && jobs != [] && Runs(Start(jobs, parallelism), moves, q)
    ensures |q.workers| <= parallelism && |q.workers| <= |jobs|
    ensures |q.workers| == parallelism || |q.workers| == |jobs|
  {
    NeverMoreInHand(Start(jobs, parallelism), moves, q);
  }

  /** Every complete schedule of the worker pool gives what the serial loop gives on the entries
      in completion order; so each entry is delivered exactly once, the ack list is a
      duplicate-free permutation of the serial one, and the error map is the same. */
  lemma ParallelRefinesSerial(jobs: seq<Job>, parallelism: int, moves: seq<Move>, q: Pool)
    requires parallelism > 1 && jobs != [] && DistinctJtis(jobs)
    requires Runs(Start(jobs, parallelism), moves, q) && Finished(q)
    ensures Reordered(jobs, q.called) && Reordered(jobs, q.committed)
    ensures q.acc == Outcome(q.committed)
    ensures multiset(q.acc.ack) == multiset(Outcome(jobs).ack) && Distinct(q.acc.ack)
    ensures q.acc.setErrs == Outcome(jobs).setErrs
  {
    var p := Start(jobs, parallelism);
    forall job ensures JobInv(jobs, p, job) {
      AllIdle(p.workers, false, job);
      AllIdle(p.workers, true, job);
    }
    PoolInvAlways(jobs, p, moves, q);
    forall job
      ensures multiset(jobs)[job] == multiset(q.called)[job] == multiset(q.committed)[job]
    {
      assert JobInv(jobs, q, job);
      AllIdle(q.workers, false, job);
      AllIdle(q.workers, true, job);
    }
    OutcomeOfReordered(jobs, q.committed);
    OutcomeIsExact(q.committed);
  }

  /** Work left in the pool, in moves. */
  function Remaining(p: Pool): nat {
    3 * |p.queue| + InHand(p.workers)
  }

  function MovesLeft(w: Worker): nat {
    match w case Idle => 0 case Holding(_) => 2 case Reporting(_, _) => 1
  }

  function InHand(workers: seq<Worker>): nat {
    if workers == [] then 0 else MovesLeft(workers[0]) + InHand(workers[1..])
  }

  lemma {:induction false} InHandUpdate(workers: seq<Worker>, w: nat, x: Worker)
    requires w < |workers|
    ensures InHand(workers[w := x]) + MovesLeft(workers[w]) == InHand(workers) + MovesLeft(x)
  {
    if w == 0 {
      assert workers[w := x][1..] == workers[1..];
    } else {
      assert workers[w := x][1..] == workers[1..][w - 1 := x];
      InHandUpdate(workers[1..], w - 1, x);
    }
  }

  /** The unbuffered channel cannot deadlock the pool: short of the end some move is possible, and
      every move uses up one of at most three moves per entry. */
  lemma PoolMakesProgress(p: Pool)
    requires p.workers != []
    ensures !Finished(p) ==> exists m :: Enabled(p, m)
    ensures forall m | Enabled(p, m) :: Remaining(Apply(p, m)) == Remaining(p) - 1
  {
    if !Finished(p) {
      if w :| 0 <= w < |p.workers| && !p.workers[w].Idle? {
        assert Enabled(p, Call(w)) || Enabled(p, Commit(w));
      } else {
        assert Enabled(p, Take(0));
      }
    }
    forall m | Enabled(p, m)
      ensures Remaining(Apply(p, m)) == Remaining(p) - 1
    {
      InHandUpdate(p.workers, m.w, Apply(p, m).workers[m.w]);
    }
  }

  /** Any schedule runs for at most three moves per entry. */
  lemma {:induction false} ScheduleIsBounded(p: Pool, moves: seq<Move>, q: Pool)
    requires p.workers != [] && Runs(p, moves, q)
    ensures |moves| + Remaining(q) == Remaining(p)
    decreases |moves|
  {
    if moves != [] {
      PoolMakesProgress(p);
      ScheduleIsBounded(Apply(p, moves[0]), moves[1..], q);
    }
  }
}
