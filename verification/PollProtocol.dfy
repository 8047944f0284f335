/** internal/interop/interop.go: what one poll does to the bookkeeping of one stream. */
module PollDrain {
  import opened Collections
  import opened Wrappers
  import opened PollWire

  datatype Entry = Entry(jti: string, jws: string)

  /** One stream's FIFO, its unacknowledged SETs and the errors reported for it. */
  datatype Tx = Tx(pending: seq<Entry>, outstanding: map<string, string>, observed: map<string, SetErr>)

  const EMPTY := Tx([], map[], map[])

  const DEFAULT_CAP := 64

  function BatchCap(maxEvents: Option<int>): nat {
    match maxEvents
    case None => DEFAULT_CAP
    case Some(n) => if n < 0 then 0 else n
  }

  function BatchSize(pending: seq<Entry>, maxEvents: Option<int>): (n: nat)
    ensures n <= |pending|
  {
    if BatchCap(maxEvents) < |pending| then BatchCap(maxEvents) else |pending|
  }

  /** The batch as the JSON object it travels in: of two entries with one jti the later wins. */
  function SetsOf(batch: seq<Entry>): (m: map<string, string>)
    ensures forall j :: j in m <==> exists k | 0 <= k < |batch| :: batch[k].jti == j
  {
    if batch == [] then map[]
    else
      var last := batch[|batch| - 1];
      var m := SetsOf(batch[..|batch| - 1]);
      assert forall k | 0 <= k < |batch| - 1 :: batch[..|batch| - 1][k] == batch[k];
      m[last.jti := last.jws]
  }

  /** The acked jtis leave; the head of the queue becomes outstanding; errors are only noted. */
  function AfterPoll(tx: Tx, req: Request): Tx {
    var n := BatchSize(tx.pending, req.maxEvents);
    Tx(tx.pending[n..],
       (tx.outstanding - Elems(req.ack)) + SetsOf(tx.pending[..n]),
       tx.observed + req.setErrs)
  }

  function PollReply(tx: Tx, req: Request): Response {
    var n := BatchSize(tx.pending, req.maxEvents);
    Response(SetsOf(tx.pending[..n]), n < |tx.pending|)
  }

  // ---------------------------------------------------------------- what a poll does, fact by fact

  /** `now` and `resp` are what one poll makes of `was`. The head of the queue leaves it, as much as
      the cap allows: 64 when the request names none, nothing when it names zero or less. */
  ghost predicate IsPoll(was: Tx, req: Request, now: Tx, resp: Response) {
    && |now.pending| <= |was.pending|
    && var n := |was.pending| - |now.pending|;
    && now.pending == was.pending[n..]
    && n <= (if req.maxEvents.None? then 64 else if req.maxEvents.value > 0 then req.maxEvents.value else 0)
    && (now.pending != [] ==>
          n == if req.maxEvents.None? then 64 else if req.maxEvents.value > 0 then req.maxEvents.value else 0)
    && (resp.moreAvailable <==> now.pending != [])
    && HoldsBatch(resp.sets, was.pending[..n])
    && TakesIn(was, req, now, resp.sets)
  }

  /** The jtis of the batch, each with the token of its last entry. */
  ghost predicate HoldsBatch(sets: map<string, string>, batch: seq<Entry>) {
    && (forall j :: j in sets <==> exists k | 0 <= k < |batch| :: batch[k].jti == j)
    && forall k | 0 <= k < |batch| && (forall l | k < l < |batch| :: batch[l].jti != batch[k].jti) ::
         sets[batch[k].jti] == batch[k].jws
  }

  /** The acked SETs leave, the batch joins, and every reported error is noted over what was. */
  ghost predicate TakesIn(was: Tx, req: Request, now: Tx, sets: map<string, string>) {
    && (forall j :: j in now.outstanding <==> j in sets || (j in was.outstanding && j !in req.ack))
    && (forall j | j in now.outstanding :: now.outstanding[j] == if j in sets then sets[j] else was.outstanding[j])
    && (forall j :: j in now.observed <==> j in req.setErrs || j in was.observed)
    && (forall j | j in now.observed ::
          now.observed[j] == if j in req.setErrs then req.setErrs[j] else was.observed[j])
  }

  lemma {:induction false} SetsOfHolds(batch: seq<Entry>)
    ensures HoldsBatch(SetsOf(batch), batch)
    decreases |batch|
  {
    if batch != [] {
      var init, last := batch[..|batch| - 1], batch[|batch| - 1];
      SetsOfHolds(init);
      assert forall k | 0 <= k < |init| :: init[k] == batch[k];
    }
  }

  lemma PollMeans(tx: Tx, req: Request)
    ensures IsPoll(tx, req, AfterPoll(tx, req), PollReply(tx, req))
  {
    hide SetsOf, HoldsBatch;
    SetsOfHolds(tx.pending[..BatchSize(tx.pending, req.maxEvents)]);
  }
}

/** The poll protocol of RFC 8936 section 2.4 as the two parties implement it: Poller.Run with
    pollOnce and process on one side, MemstoreTransmitter on the other. Every section run under a
    mutex is one step, so the two halves of EnqueueForPoll, DeleteConfig and PollEvents interleave.
    The network may lose a request or a reply, and may serve a request late, after the Poller gave
    up on it, or more than once. */
module PollProtocol {
  import opened Collections
  import opened Wrappers
  import opened PollWire
  import opened Process
  import opened PollDrain

  /** What happened, for the statements only; no step reads it. `enqueued`, `handed`, `cleared` and
      `served` count from the last time the stream was cleared, the rest from the beginning. */
  datatype History = History(
    submitted: set<string>,   // jtis given to EnqueueForPoll
    enqueued: seq<Entry>,
    handed: seq<Entry>,       // batches handed out, in order
    cleared: set<string>,     // jtis taken out of `outstanding` by an ack
    everHanded: set<string>,
    everCleared: set<string>,
    dropped: set<string>,     // jtis outstanding when the stream was cleared
    finished: set<string>,    // jtis for which the Sink returned nil or ErrPermanent
    delivered: seq<string>,   // jtis in the order the Sink was called
    failures: map<string, SetErr>, // what processing reported, by jti
    served: seq<Request>,     // requests served, in order
    everServed: set<nat>,     // their positions in `sent`
    forgotten: set<nat>)      // those served before the stream was last cleared

  datatype State = State(
    maxEvents: int,
    known: bool,              // the store knows the stream
    tx: Tx,
    enqueueing: set<Entry>,   // EnqueueForPoll calls past the store, not yet in the queue
    polling: multiset<nat>,   // PollEvents calls past GetStream, not yet under the lock
    carry: Carry,             // nextAck and nextSetErrs
    current: Option<nat>,     // the request the Poller waits on
    reply: Option<Response>,  // its reply, once on the way
    sent: seq<Request>,
    h: History)

  datatype Step =
    | CreateStream
    | CheckEnqueue(e: Entry)         // EnqueueForPoll: store.EnqueueSET succeeds
    | Append(e: Entry)               // EnqueueForPoll: the section under t.mu
    | ClearStream                    // DeleteConfig: the section under t.mu
    | DropStream                     // DeleteConfig: store.DeleteStream
    | Send                           // pollOnce posts
    | CheckPoll(i: nat)              // PollEvents for request i: store.GetStream succeeds
    | ServePoll(i: nat, heard: bool) // PollEvents for request i: the section under t.mu
    | Fail                           // pollOnce fails: transport, 429, 503, other status, bad body
    | Receive(jobs: seq<Job>)        // pollOnce succeeds: process runs over the reply

  function Init(maxEvents: int): State
    requires maxEvents > 0
  {
    State(maxEvents, false, EMPTY, {}, multiset{}, NOTHING, None, None, [],
          History({}, [], [], {}, {}, {}, {}, {}, [], map[], [], {}, {}))
  }

  function EntryJtis(es: seq<Entry>): set<string> {
    set e <- es :: e.jti
  }

  ghost predicate DistinctEntries(es: seq<Entry>) {
    forall i, j | 0 <= i < j < |es| :: es[i].jti != es[j].jti
  }

  function Jtis(jobs: seq<Job>): set<string> {
    set job <- jobs :: job.jti
  }

  ghost predicate Enabled(s: State, step: Step) {
    match step
    case CreateStream => !s.known
    case CheckEnqueue(e) => s.known && e.jti !in s.h.submitted
    case Append(e) => e in s.enqueueing
    case ClearStream => true
    case DropStream => true
    case Send => s.current.None?
    case CheckPoll(i) => s.known && i < |s.sent|
    case ServePoll(i, heard) => i in s.polling && i < |s.sent| && (heard ==> s.current == Some(i))
    case Fail => s.current.Some?
    case Receive(jobs) =>
      s.reply.Some? && DistinctJtis(jobs) && Jtis(jobs) == s.reply.value.sets.Keys
  }

  function Finishers(jobs: seq<Job>): set<string> {
    set job <- jobs | job.verdict.Finishes() :: job.jti
  }

  /** The Sink calls made while processing the jobs. */
  function SinkCalls(jobs: seq<Job>): seq<string> {
    if jobs == [] then []
    else SinkCalls(jobs[..|jobs| - 1]) + if jobs[|jobs| - 1].verdict.ReachesSink() then [jobs[|jobs| - 1].jti] else []
  }

  function Serve(s: State, i: nat, heard: bool): State
    requires i < |s.sent|
  {
    var req := s.sent[i];
    var n := BatchSize(s.tx.pending, req.maxEvents);
    var batch := s.tx.pending[..n];
    var gone := s.tx.outstanding.Keys * Elems(req.ack);
    s.(tx := AfterPoll(s.tx, req),
       polling := s.polling - multiset{i},
       reply := if heard then Some(PollReply(s.tx, req)) else s.reply,
       h := s.h.(handed := s.h.handed + batch,
                 everHanded := s.h.everHanded + EntryJtis(batch),
                 cleared := s.h.cleared + gone,
                 everCleared := s.h.everCleared + gone,
                 served := s.h.served + [req],
                 everServed := s.h.everServed + {i}))
  }

  ghost function Apply(s: State, step: Step): State
    requires Enabled(s, step)
  {
    match step
    case CreateStream => s.(known := true)
    case CheckEnqueue(e) =>
      s.(enqueueing := s.enqueueing + {e}, h := s.h.(submitted := s.h.submitted + {e.jti}))
    case Append(e) =>
      s.(enqueueing := s.enqueueing - {e}, tx := s.tx.(pending := s.tx.pending + [e]),
         h := s.h.(enqueued := s.h.enqueued + [e]))
    case ClearStream =>
      s.(tx := EMPTY,
         h := s.h.(enqueued := [], handed := [], cleared := {}, dropped := s.h.dropped + s.tx.outstanding.Keys,
                   served := [], forgotten := s.h.everServed))
    case DropStream => s.(known := false)
    case Send =>
      s.(current := Some(|s.sent|), reply := None,
         sent := s.sent + [Request(s.carry.ack, s.carry.setErrs, Some(s.maxEvents))])
    case CheckPoll(i) => s.(polling := s.polling + multiset{i})
    case ServePoll(i, heard) => Serve(s, i, heard)
    case Fail => s.(current := None, reply := None)
    case Receive(jobs) =>
      s.(carry := Outcome(jobs), current := None, reply := None,
         h := s.h.(finished := s.h.finished + Finishers(jobs), delivered := s.h.delivered + SinkCalls(jobs),
                   failures := s.h.failures + Outcome(jobs).setErrs))
  }

  ghost predicate Runs(s: State, steps: seq<Step>, t: State)
    decreases |steps|
  {
    if steps == [] then s == t
    else Enabled(s, steps[0]) && Runs(Apply(s, steps[0]), steps[1..], t)
  }

  // ---------------------------------------------------------------- what every step keeps

  /** No jti is queued, on its way into the queue, or handed out twice over. */
  ghost predicate Unique(s: State) {
    && DistinctEntries(s.tx.pending)
    && EntryJtis(s.tx.pending) !! s.h.everHanded
    && (forall e, e' | e in s.enqueueing && e' in s.enqueueing :: e.jti == e'.jti ==> e == e')
    && (forall e <- s.enqueueing ::
          e.jti !in s.h.everHanded && e.jti !in EntryJtis(s.tx.pending) && e.jti in s.h.submitted)
    && EntryJtis(s.tx.pending) <= s.h.submitted
    && s.h.everHanded <= s.h.submitted
  }

  /** Conservation: the queue's history is what was handed out followed by what is pending, and
      what was handed out is either acked or outstanding, never both. */
  ghost predicate Conserved(s: State) {
    && s.h.enqueued == s.h.handed + s.tx.pending
    && DistinctEntries(s.h.handed)
    && EntryJtis(s.h.handed) == s.h.cleared + s.tx.outstanding.Keys
    && s.h.cleared !! s.tx.outstanding.Keys
    && EntryJtis(s.h.handed) <= s.h.everHanded
    && s.h.everHanded == s.h.everCleared + s.h.dropped + s.tx.outstanding.Keys
    && s.h.everCleared !! s.tx.outstanding.Keys
    && s.h.dropped !! s.tx.outstanding.Keys
  }

  /** Acks are for finished SETs only, and a finished SET is acked until its ack has been served. */
  ghost predicate AcksInOrder(s: State) {
    && (forall i | 0 <= i < |s.sent| :: Elems(s.sent[i].ack) <= s.h.finished)
    && Elems(s.carry.ack) <= s.h.finished
    && s.h.everCleared <= s.h.finished
    && s.h.finished <= s.h.everHanded
    && s.h.finished * s.tx.outstanding.Keys <= Elems(s.carry.ack)
    && (s.current.Some? ==> s.current.value < |s.sent| && s.sent[s.current.value].ack == s.carry.ack)
    && (s.reply.Some? ==> s.current.Some? && Elems(s.carry.ack) !! s.tx.outstanding.Keys)
  }

  /** The Sink meets every jti at most once. */
  ghost predicate DeliveredOnce(s: State) {
    && Distinct(s.h.delivered)
    && Elems(s.h.delivered) <= s.h.everHanded
    && s.h.finished <= Elems(s.h.delivered)
    && (s.reply.Some? ==> s.reply.value.sets.Keys <= s.h.everHanded && s.reply.value.sets.Keys !! Elems(s.h.delivered))
  }

  ghost predicate Inv(s: State) {
    Unique(s) && Conserved(s) && AcksInOrder(s) && DeliveredOnce(s)
  }

  lemma BatchFacts(s: State, n: nat)
    requires n <= |s.tx.pending| && DistinctEntries(s.tx.pending)
    ensures EntryJtis(s.tx.pending) == EntryJtis(s.tx.pending[..n]) + EntryJtis(s.tx.pending[n..])
    ensures EntryJtis(s.tx.pending[..n]) !! EntryJtis(s.tx.pending[n..])
    ensures SetsOf(s.tx.pending[..n]).Keys == EntryJtis(s.tx.pending[..n])
    ensures DistinctEntries(s.tx.pending[..n]) && DistinctEntries(s.tx.pending[n..])
    ensures s.tx.pending == s.tx.pending[..n] + s.tx.pending[n..]
  {
    var p := s.tx.pending;
    assert p == p[..n] + p[n..];
    JtisConcat(p[..n], p[n..]);
    DistinctSplits(p, n);
    SetsKeys(p[..n]);
  }

  lemma JtisConcat(a: seq<Entry>, b: seq<Entry>)
    ensures EntryJtis(a + b) == EntryJtis(a) + EntryJtis(b)
  {
  }

  lemma SetsKeys(batch: seq<Entry>)
    ensures SetsOf(batch).Keys == EntryJtis(batch)
  {
    forall j
      ensures j in SetsOf(batch) <==> j in EntryJtis(batch)
    {
    }
  }

  lemma DistinctSplits(p: seq<Entry>, n: nat)
    requires n <= |p| && DistinctEntries(p)
    ensures DistinctEntries(p[..n]) && DistinctEntries(p[n..])
    ensures EntryJtis(p[..n]) !! EntryJtis(p[n..])
  {
    forall a, b | a in p[..n] && b in p[n..]
      ensures a.jti != b.jti
    {
      var i :| 0 <= i < n && p[i] == a;
      var j :| n <= j < |p| && p[j] == b;
    }
  }

  lemma UniqueHolds(s: State, step: Step)
    requires Unique(s) && Enabled(s, step)
    ensures Unique(Apply(s, step))
  {
    var t := Apply(s, step);
    match step {
      case Append(e) =>
        assert EntryJtis(t.tx.pending) == EntryJtis(s.tx.pending) + {e.jti};
        forall i, j | 0 <= i < j < |t.tx.pending|
          ensures t.tx.pending[i].jti != t.tx.pending[j].jti
        {
          assert s.tx.pending[i] in s.tx.pending;
        }
      case ServePoll(i, heard) =>
        BatchFacts(s, BatchSize(s.tx.pending, s.sent[i].maxEvents));
      case _ =>
    }
  }

  lemma ConservedHolds(s: State, step: Step)
    requires Unique(s) && Conserved(s) && Enabled(s, step)
    ensures Conserved(Apply(s, step))
  {
    match step {
      case Append(e) =>
        var t := Apply(s, step);
        assert t.h.enqueued == t.h.handed + t.tx.pending;
      case ServePoll(i, heard) =>
        ServeConserves(s, i, heard);
      case _ =>
    }
  }

  lemma ServeConserves(s: State, i: nat, heard: bool)
    requires Unique(s) && Conserved(s) && i < |s.sent|
    ensures Conserved(Serve(s, i, heard))
  {
    var t := Serve(s, i, heard);
    var acks := Elems(s.sent[i].ack);
    var batch := s.tx.pending[..BatchSize(s.tx.pending, s.sent[i].maxEvents)];
    ServeFacts(s, i, heard);
    hide EntryJtis, SetsOf, Serve, Elems, DistinctEntries, AfterPoll, BatchSize;
    ServedSets(s.h.cleared, s.h.everHanded, s.h.everCleared, s.h.dropped, s.tx.outstanding.Keys, acks,
               EntryJtis(batch));
  }

  lemma ServeFacts(s: State, i: nat, heard: bool)
    requires Unique(s) && Conserved(s) && i < |s.sent|
    ensures var t := Serve(s, i, heard);
      var acks := Elems(s.sent[i].ack);
      var batch := s.tx.pending[..BatchSize(s.tx.pending, s.sent[i].maxEvents)];
      && t.h.enqueued == t.h.handed + t.tx.pending && DistinctEntries(t.h.handed)
      && EntryJtis(t.h.handed) == EntryJtis(s.h.handed) + EntryJtis(batch) && EntryJtis(batch) !! s.h.everHanded
      && t.tx.outstanding.Keys == (s.tx.outstanding.Keys - acks) + EntryJtis(batch)
      && t.h.cleared == s.h.cleared + s.tx.outstanding.Keys * acks
      && t.h.everCleared == s.h.everCleared + s.tx.outstanding.Keys * acks
      && t.h.everHanded == s.h.everHanded + EntryJtis(batch) && t.h.dropped == s.h.dropped
  {
    hide SetsOf;
    var n := BatchSize(s.tx.pending, s.sent[i].maxEvents);
    BatchFacts(s, n);
    var batch := s.tx.pending[..n];
    JtisConcat(s.h.handed, batch);
    ConcatDistinct(s.h.handed, batch);
    assert s.h.handed + (batch + s.tx.pending[n..]) == (s.h.handed + batch) + s.tx.pending[n..];
  }

  /** A batch of new jtis joins the outstanding ones while the acked ones leave them. */
  lemma ServedSets<T>(cleared: set<T>, ever: set<T>, everCleared: set<T>, dropped: set<T>, out: set<T>, acks: set<T>,
                      batch: set<T>)
    requires cleared !! out && cleared + out <= ever && batch !! ever
    requires ever == everCleared + dropped + out && everCleared !! out && dropped !! out
    ensures var gone := out * acks; var now := (out - acks) + batch;
      && (cleared + out) + batch == (cleared + gone) + now && cleared + gone !! now
      && (cleared + out) + batch <= ever + batch
      && ever + batch == (everCleared + gone) + dropped + now && everCleared + gone !! now && dropped !! now
  {
  }

  lemma ConcatDistinct(a: seq<Entry>, b: seq<Entry>)
    requires DistinctEntries(a) && DistinctEntries(b) && EntryJtis(a) !! EntryJtis(b)
    ensures DistinctEntries(a + b)
  {
    var c := a + b;
    forall i, j | 0 <= i < j < |c|
      ensures c[i].jti != c[j].jti
    {
      if i < |a| <= j {
        assert a[i].jti in EntryJtis(a) && b[j - |a|].jti in EntryJtis(b);
      }
    }
  }

  lemma AckedAreFinishers(jobs: seq<Job>)
    requires DistinctJtis(jobs)
    ensures Elems(Outcome(jobs).ack) == Finishers(jobs)
  {
    OutcomeIsExact(jobs);
    forall j
      ensures j in Outcome(jobs).ack <==> j in Finishers(jobs)
    {
      if job :| job in jobs && job.verdict.Finishes() && job.jti == j {
        var k :| 0 <= k < |jobs| && jobs[k] == job;
      }
    }
  }

  lemma AcksInOrderHolds(s: State, step: Step)
    requires Inv(s) && Enabled(s, step)
    ensures AcksInOrder(Apply(s, step))
  {
    var t := Apply(s, step);
    match step {
      case ServePoll(i, heard) =>
        var n := BatchSize(s.tx.pending, s.sent[i].maxEvents);
        BatchFacts(s, n);
        var batch := s.tx.pending[..n];
        assert t.tx.outstanding.Keys == (s.tx.outstanding.Keys - Elems(s.sent[i].ack)) + EntryJtis(batch);
        assert EntryJtis(batch) !! s.h.finished;
      case Receive(jobs) =>
        AckedAreFinishers(jobs);
        assert Finishers(jobs) <= s.reply.value.sets.Keys;
      case _ =>
    }
  }

  lemma JobsUnfold(jobs: seq<Job>)
    requires DistinctJtis(jobs) && jobs != []
    ensures var init, last := jobs[..|jobs| - 1], jobs[|jobs| - 1];
      && DistinctJtis(init) && last.jti !in Jtis(init) && Jtis(jobs) == Jtis(init) + {last.jti}
      && Finishers(jobs) == Finishers(init) + if last.verdict.Finishes() then {last.jti} else {}
  {
    var init, last := jobs[..|jobs| - 1], jobs[|jobs| - 1];
    assert jobs == init + [last];
  }

  lemma {:induction false} SinkCallsFacts(jobs: seq<Job>)
    requires DistinctJtis(jobs)
    ensures Distinct(SinkCalls(jobs))
    ensures Finishers(jobs) <= Elems(SinkCalls(jobs)) <= Jtis(jobs)
  {
    if jobs != [] {
      var init := jobs[..|jobs| - 1];
      SinkCallsFacts(init);
      JobsUnfold(jobs);
      hide Finishers, Jtis, DistinctJtis;
    }
  }

  lemma DeliveredOnceHolds(s: State, step: Step)
    requires Inv(s) && Enabled(s, step)
    ensures DeliveredOnce(Apply(s, step))
  {
    var t := Apply(s, step);
    match step {
      case ServePoll(i, heard) =>
        BatchFacts(s, BatchSize(s.tx.pending, s.sent[i].maxEvents));
      case Receive(jobs) =>
        SinkCallsFacts(jobs);
        DistinctConcat(s.h.delivered, SinkCalls(jobs));
        assert Elems(t.h.delivered) == Elems(s.h.delivered) + Elems(SinkCalls(jobs));
      case _ =>
    }
  }

  lemma {:induction false} InvAlways(s: State, steps: seq<Step>, t: State)
    requires Inv(s) && Runs(s, steps, t)
    ensures Inv(t)
    decreases |steps|
  {
    if steps != [] {
      UniqueHolds(s, steps[0]);
      ConservedHolds(s, steps[0]);
      AcksInOrderHolds(s, steps[0]);
      DeliveredOnceHolds(s, steps[0]);
      InvAlways(Apply(s, steps[0]), steps[1..], t);
    }
  }

  // ---------------------------------------------------------------- safety over whole runs

  /** In every run: an ack only ever removes a SET the Sink is done with, and a SET the Sink is done
      with has been cleared by its ack, went with the stream, or is still in nextAck. Acks are
      therefore neither premature nor lost, however requests and replies are lost or repeated. */
  lemma AckSafety(maxEvents: int, steps: seq<Step>, t: State)
    requires maxEvents > 0 && Runs(Init(maxEvents), steps, t)
    ensures t.h.everCleared <= t.h.finished
    ensures t.h.finished <= t.h.everCleared + t.h.dropped + Elems(t.carry.ack)
    ensures Elems(t.carry.ack) <= t.h.finished
    ensures t.h.finished !! EntryJtis(t.tx.pending)
  {
    InvAlways(Init(maxEvents), steps, t);
  }

  /** In every run: since the stream was last cleared, what was enqueued is what was handed out, in
      order, followed by what is pending; each SET handed out is either acked or outstanding. */
  lemma ConservationAndFifo(maxEvents: int, steps: seq<Step>, t: State)
    requires maxEvents > 0 && Runs(Init(maxEvents), steps, t)
    ensures t.h.enqueued == t.h.handed + t.tx.pending && DistinctEntries(t.h.enqueued)
    ensures EntryJtis(t.h.handed) == t.h.cleared + t.tx.outstanding.Keys
    ensures t.h.cleared !! t.tx.outstanding.Keys
  {
    InvAlways(Init(maxEvents), steps, t);
    assert EntryJtis(t.h.handed) !! EntryJtis(t.tx.pending);
    ConcatDistinct(t.h.handed, t.tx.pending);
  }

  /** In every run the Sink is called at most once for a jti. */
  lemma SinkNeverSeesAJtiTwice(maxEvents: int, steps: seq<Step>, t: State)
    requires maxEvents > 0 && Runs(Init(maxEvents), steps, t)
    ensures Distinct(t.h.delivered)
    ensures t.h.finished <= Elems(t.h.delivered) <= t.h.everHanded
  {
    InvAlways(Init(maxEvents), steps, t);
  }

  // ---------------------------------------------------------------- no replay

  /** Handed out, and neither finished nor on its way to the Poller. */
  ghost predicate Stranded(s: State, jti: string) {
    && jti in s.tx.outstanding
    && jti !in s.h.finished
    && (s.reply.Some? ==> jti !in s.reply.value.sets)
  }

  lemma StrandedStays(s: State, step: Step, jti: string)
    requires Inv(s) && Enabled(s, step) && !step.ClearStream? && Stranded(s, jti)
    ensures Stranded(Apply(s, step), jti)
    ensures jti in Apply(s, step).h.delivered <==> jti in s.h.delivered
  {
    match step {
      case ServePoll(i, heard) =>
        BatchFacts(s, BatchSize(s.tx.pending, s.sent[i].maxEvents));
      case Receive(jobs) =>
        SinkCallsFacts(jobs);
        assert jti !in Elems(SinkCalls(jobs));
      case _ =>
    }
  }

  /** The Transmitter never hands out an outstanding SET again: until the stream is cleared a
      stranded SET stays outstanding and the Sink does not see it (again). */
  lemma {:induction false} NeverReplayed(s: State, steps: seq<Step>, t: State, jti: string)
    requires Inv(s) && Runs(s, steps, t) && Stranded(s, jti)
    requires forall step <- steps :: !step.ClearStream?
    ensures Stranded(t, jti)
    ensures jti in t.h.delivered <==> jti in s.h.delivered
    decreases |steps|
  {
    if steps != [] {
      StrandedStays(s, steps[0], jti);
      UniqueHolds(s, steps[0]);
      ConservedHolds(s, steps[0]);
      AcksInOrderHolds(s, steps[0]);
      DeliveredOnceHolds(s, steps[0]);
      NeverReplayed(Apply(s, steps[0]), steps[1..], t, jti);
    }
  }

  /** So a SET whose delivery failed transiently, or whose signature was refused, gets no second
      try while the stream lives, although the Poller withholds its ack to get one. */
  lemma TransientFailureIsFinal(s: State, jobs: seq<Job>, steps: seq<Step>, t: State, job: Job)
    requires Inv(s) && Enabled(s, Receive(jobs)) && Runs(Apply(s, Receive(jobs)), steps, t)
    requires job in jobs && !job.verdict.Finishes() && job.jti in s.tx.outstanding
    requires forall step <- steps :: !step.ClearStream?
    ensures Stranded(t, job.jti)
    ensures job.jti in t.h.delivered <==> job.verdict.Transient?
  {
    var u := Apply(s, Receive(jobs));
    UniqueHolds(s, Receive(jobs));
    ConservedHolds(s, Receive(jobs));
    AcksInOrderHolds(s, Receive(jobs));
    DeliveredOnceHolds(s, Receive(jobs));
    assert job.jti in s.reply.value.sets.Keys;
    forall other | other in jobs && other.jti == job.jti
      ensures other == job
    {
      var a :| 0 <= a < |jobs| && jobs[a] == job;
      var b :| 0 <= b < |jobs| && jobs[b] == other;
    }
    assert job.jti !in Finishers(jobs);
    assert job.jti !in Elems(s.h.delivered);
    SinkCallsExact(jobs, job);
    NeverReplayed(u, steps, t, job.jti);
  }

  /** The run leaves the stream alone and the Sink is called with the SET in it. */
  ghost predicate Delivers(s: State, steps: seq<Step>, t: State, jti: string) {
    Runs(s, steps, t) && (forall step <- steps :: !step.ClearStream?) && jti in t.h.delivered
  }

  /** Exactly when the Sink can still get to see an outstanding SET while the stream lives: when it is
      in a reply already on its way to the Poller. In every other case, whatever the reason, the
      replay that deliverOne counts on cannot come. */
  lemma OutstandingReachesSinkIff(s: State, jti: string)
    requires Inv(s) && jti in s.tx.outstanding && jti !in s.h.delivered
    ensures (exists steps: seq<Step>, t :: Delivers(s, steps, t, jti)) <==> s.reply.Some? && jti in s.reply.value.sets
  {
    if s.reply.Some? && jti in s.reply.value.sets {
      var jobs := JobsFor(s.reply.value.sets.Keys, _ => Accepted);
      var job :| job in jobs && job.jti == jti;
      SinkCallsExact(jobs, job);
      var t := Apply(s, Receive(jobs));
      assert t.h.delivered == s.h.delivered + SinkCalls(jobs);
      Prepend(s, Receive(jobs), [], t);
      assert Delivers(s, [Receive(jobs)] + [], t, jti);
    } else {
      forall steps: seq<Step>, t | Runs(s, steps, t) && forall step <- steps :: !step.ClearStream?
        ensures !Delivers(s, steps, t, jti)
      {
        NeverReplayed(s, steps, t, jti);
      }
    }
  }

  /** A batch of the given jtis in which every SET meets the verdict `verdict` has for it. */
  lemma JobsFor(jtis: set<string>, verdict: string -> Verdict) returns (jobs: seq<Job>)
    ensures DistinctJtis(jobs) && Jtis(jobs) == jtis && forall job <- jobs :: job.verdict == verdict(job.jti)
    decreases |jtis|
  {
    if jtis == {} {
      jobs := [];
    } else {
      var jti :| jti in jtis;
      var rest := JobsFor(jtis - {jti}, verdict);
      var last := Job(jti, verdict(jti));
      jobs := rest + [last];
      JobAdded(rest, last);
      hide Jtis, DistinctJtis;
      assert forall job :: job in jobs <==> job in rest || job == last;
    }
  }

  lemma JobAdded(jobs: seq<Job>, job: Job)
    requires DistinctJtis(jobs) && job.jti !in Jtis(jobs)
    ensures DistinctJtis(jobs + [job]) && Jtis(jobs + [job]) == Jtis(jobs) + {job.jti}
  {
    assert forall i | 0 <= i < |jobs| :: jobs[i] in jobs && jobs[i].jti in Jtis(jobs);
  }

  lemma {:induction false} SinkCallsExact(jobs: seq<Job>, job: Job)
    requires DistinctJtis(jobs) && job in jobs
    ensures job.jti in SinkCalls(jobs) <==> job.verdict.ReachesSink()
  {
    var init, last := jobs[..|jobs| - 1], jobs[|jobs| - 1];
    SinkCallsFacts(init);
    assert jobs == init + [last];
    if job in init {
      SinkCallsExact(init, job);
      assert job.jti != last.jti;
    } else {
      assert forall other <- init :: other.jti != job.jti;
      assert job.jti !in Elems(SinkCalls(init));
    }
  }

  lemma Prepend(s: State, step: Step, rest: seq<Step>, t: State)
    requires Enabled(s, step) && Runs(Apply(s, step), rest, t)
    ensures Runs(s, [step] + rest, t)
  {
    assert ([step] + rest)[1..] == rest;
  }

  lemma FourSteps(s: State, a: Step, b: Step, c: Step, d: Step, s1: State, s2: State, s3: State, t: State)
    requires Enabled(s, a) && s1 == Apply(s, a) && Enabled(s1, b) && s2 == Apply(s1, b)
    requires Enabled(s2, c) && s3 == Apply(s2, c) && Enabled(s3, d) && t == Apply(s3, d)
    ensures Runs(s, [a] + ([b] + ([c] + ([d] + []))), t)
  {
    hide Enabled, Apply;
    Prepend(s3, d, [], t);
    Prepend(s2, c, [d] + [], t);
    Prepend(s1, b, [c] + ([d] + []), t);
    Prepend(s, a, [b] + ([c] + ([d] + [])), t);
  }

  /** A SET is enqueued on a new stream. */
  function Enqueueing(e: Entry): seq<Step> {
    [CreateStream] + ([CheckEnqueue(e)] + ([Append(e)] + []))
  }

  /** The first poll is served but its reply does not arrive. */
  const LOSE_REPLY := [Send] + ([CheckPoll(0)] + ([ServePoll(0, false)] + ([Fail] + [])))

  function LostReply(e: Entry): seq<Step> {
    Enqueueing(e) + LOSE_REPLY
  }

  lemma EnqueueingRuns(e: Entry) returns (s: State)
    ensures Runs(Init(100), Enqueueing(e), s)
    ensures s.known && s.tx == Tx([e], map[], map[]) && s.maxEvents == 100
    ensures s.carry == NOTHING && s.current.None? && s.sent == [] && s.h.finished == {} && s.h.delivered == []
  {
    var s1 := Apply(Init(100), CreateStream);
    var s2 := Apply(s1, CheckEnqueue(e));
    s := Apply(s2, Append(e));
    Prepend(s2, Append(e), [], s);
    Prepend(s1, CheckEnqueue(e), [Append(e)] + [], s);
    Prepend(Init(100), CreateStream, [CheckEnqueue(e)] + ([Append(e)] + []), s);
  }

  lemma LosingTheReply(s: State, e: Entry) returns (t: State)
    requires s.known && s.tx == Tx([e], map[], map[]) && s.maxEvents == 100
    requires s.carry == NOTHING && s.current.None? && s.sent == [] && s.h.finished == {} && s.h.delivered == []
    ensures Runs(s, LOSE_REPLY, t) && Stranded(t, e.jti) && e.jti !in t.h.delivered
  {
    var s1 := Apply(s, Send);
    var s2 := Apply(s1, CheckPoll(0));
    assert s2.tx.pending[..1] == [e];
    var s3 := Apply(s2, ServePoll(0, false));
    assert e.jti in SetsOf([e]);
    t := Apply(s3, Fail);
    FourSteps(s, Send, CheckPoll(0), ServePoll(0, false), Fail, s1, s2, s3, t);
  }

  lemma LostReplyStrands(e: Entry) returns (t: State)
    ensures Runs(Init(100), LostReply(e), t) && Stranded(t, e.jti) && e.jti !in t.h.delivered
  {
    var s := EnqueueingRuns(e);
    t := LosingTheReply(s, e);
    RunsSplit(Init(100), Enqueueing(e), s, LOSE_REPLY, t);
  }

  /** Whatever happens after a lost reply, short of clearing the stream, the Sink never sees the SET:
      delivery is at most once, not at least once. */
  lemma LostReplyLosesTheSet(e: Entry, steps: seq<Step>, t: State)
    requires Runs(Init(100), LostReply(e) + steps, t)
    requires forall step <- steps :: !step.ClearStream?
    ensures e.jti !in t.h.delivered && e.jti in t.tx.outstanding
  {
    var s := LostReplyStrands(e);
    RunsSplit(Init(100), LostReply(e), s, steps, t);
    InvAlways(Init(100), LostReply(e), s);
    NeverReplayed(s, steps, t, e.jti);
  }

  lemma {:induction false} RunsSplit(s: State, a: seq<Step>, u: State, b: seq<Step>, t: State)
    requires Runs(s, a, u)
    ensures Runs(s, a + b, t) <==> Runs(u, b, t)
    decreases |a|
  {
    if a == [] {
      assert a + b == b;
    } else {
      assert (a + b)[1..] == a[1..] + b;
      RunsSplit(Apply(s, a[0]), a[1..], u, b, t);
    }
  }

  // ---------------------------------------------------------------- deletion

  /** Whether entries can turn up in the queue of a stream that no longer exists: exactly when one
      is there already or an EnqueueForPoll is between its two sections. */
  lemma {:induction false} QuietAfterDelete(s: State, steps: seq<Step>, t: State)
    requires !s.known && s.enqueueing == {} && s.tx.pending == []
    requires Runs(s, steps, t) && forall step <- steps :: !step.CreateStream?
    ensures !t.known && t.enqueueing == {} && t.tx.pending == []
    decreases |steps|
  {
    if steps != [] {
      QuietAfterDelete(Apply(s, steps[0]), steps[1..], t);
    }
  }

  lemma ResidueIff(s: State)
    requires !s.known
    ensures s.enqueueing != {} || s.tx.pending != [] <==>
            exists steps: seq<Step>, t :: RunsWithoutCreate(s, steps, t) && t.tx.pending != []
  {
    if s.tx.pending != [] {
      assert RunsWithoutCreate(s, [], s);
    } else if s.enqueueing != {} {
      var e :| e in s.enqueueing;
      var t := Apply(s, Append(e));
      Prepend(s, Append(e), [], t);
      assert RunsWithoutCreate(s, [Append(e)] + [], t);
      assert t.tx.pending[|s.tx.pending|] == e;
    } else {
      forall steps: seq<Step>, t | RunsWithoutCreate(s, steps, t)
        ensures t.tx.pending == []
      {
        QuietAfterDelete(s, steps, t);
      }
    }
  }

  ghost predicate RunsWithoutCreate(s: State, steps: seq<Step>, t: State) {
    Runs(s, steps, t) && forall step <- steps :: !step.CreateStream?
  }

  /** The state in which a DeleteConfig that nothing interrupts leaves the two parties. */
  ghost function Deleted(s: State): State {
    Apply(Apply(s, ClearStream), DropStream)
  }

  /** After DeleteConfig the queue of the stream that is gone can fill again, before any stream of the
      name is created, exactly when some EnqueueForPoll was between its two sections. */
  lemma DeleteLeavesResidueIff(s: State)
    ensures (exists steps: seq<Step>, t :: RunsWithoutCreate(Deleted(s), steps, t) && t.tx.pending != [])
            <==> s.enqueueing != {}
  {
    ResidueIff(Deleted(s));
  }

  /** An enqueue admitted before DeleteConfig that lands after it... */
  function LateEnqueue(e: Entry): seq<Step> {
    [CreateStream] + ([CheckEnqueue(e)] + ([ClearStream] + ([DropStream] + ([Append(e)] + []))))
  }

  /** ...and the first poll of the next stream of the name. */
  const NEXT_STREAM := [CreateStream] + ([Send] + ([CheckPoll(0)] + ([ServePoll(0, true)] + [])))

  lemma LateEnqueueRuns(e: Entry) returns (s: State)
    ensures Runs(Init(100), LateEnqueue(e), s)
    ensures !s.known && s.tx == Tx([e], map[], map[]) && s.maxEvents == 100
    ensures s.carry == NOTHING && s.current.None? && s.reply.None? && s.sent == [] && s.polling == multiset{}
  {
    var s1 := Apply(Init(100), CreateStream);
    var s2 := Apply(s1, CheckEnqueue(e));
    var s3 := Apply(s2, ClearStream);
    var s4 := Apply(s3, DropStream);
    s := Apply(s4, Append(e));
    Prepend(s4, Append(e), [], s);
    Prepend(s3, DropStream, [Append(e)] + [], s);
    Prepend(s2, ClearStream, [DropStream] + ([Append(e)] + []), s);
    Prepend(s1, CheckEnqueue(e), [ClearStream] + ([DropStream] + ([Append(e)] + [])), s);
    Prepend(Init(100), CreateStream, [CheckEnqueue(e)] + ([ClearStream] + ([DropStream] + ([Append(e)] + []))), s);
  }

  lemma NextStreamRuns(s: State, e: Entry) returns (t: State)
    requires !s.known && s.tx == Tx([e], map[], map[]) && s.maxEvents == 100
    requires s.carry == NOTHING && s.current.None? && s.reply.None? && s.sent == [] && s.polling == multiset{}
    ensures Runs(s, NEXT_STREAM, t) && t.known && t.reply == Some(Response(map[e.jti := e.jws], false))
  {
    var s1 := Apply(s, CreateStream);
    var s2 := Apply(s1, Send);
    var s3 := Apply(s2, CheckPoll(0));
    assert s3.tx.pending[..1] == [e];
    assert [e][..0] == [];
    t := Apply(s3, ServePoll(0, true));
    FourSteps(s, CreateStream, Send, CheckPoll(0), ServePoll(0, true), s1, s2, s3, t);
  }

  /** That state is reachable, and the next stream of the same name hands the old SET out. */
  lemma EnqueueOutlivesItsStream(e: Entry)
    ensures exists s, t ::
              && Runs(Init(100), LateEnqueue(e), s) && !s.known && s.tx.pending == [e]
              && Runs(s, NEXT_STREAM, t) && t.known && t.reply == Some(Response(map[e.jti := e.jws], false))
  {
    var s := LateEnqueueRuns(e);
    var t := NextStreamRuns(s, e);
  }

  // ---------------------------------------------------------------- drain

  /** The Poller is between polls and the stream is there. */
  predicate Ready(s: State) {
    s.known && s.current.None? && s.maxEvents > 0
  }

  /** The next request posted, served, and its reply on the way back. */
  ghost function Answered(s: State): State
    requires Ready(s)
  {
    Apply(Apply(Apply(s, Send), CheckPoll(|s.sent|)), ServePoll(|s.sent|, true))
  }

  /** A run of polls in which nothing goes wrong and nothing else happens; batches[k] holds the SETs
      of the k-th reply with their verdicts. */
  ghost predicate CleanRun(s: State, batches: seq<seq<Job>>, t: State)
    decreases |batches|
  {
    if batches == [] then s == t
    else
      && Ready(s)
      && Enabled(Answered(s), Receive(batches[0]))
      && CleanRun(Apply(Answered(s), Receive(batches[0])), batches[1..], t)
  }

  /** A clean poll is four steps of the protocol. */
  lemma CleanPollIsARun(s: State, jobs: seq<Job>)
    requires Ready(s) && Enabled(Answered(s), Receive(jobs))
    ensures Runs(s, [Send] + ([CheckPoll(|s.sent|)] + ([ServePoll(|s.sent|, true)] + ([Receive(jobs)] + []))),
                 Apply(Answered(s), Receive(jobs)))
  {
    var s1 := Apply(s, Send);
    var s2 := Apply(s1, CheckPoll(|s.sent|));
    var t := Apply(Answered(s), Receive(jobs));
    FourSteps(s, Send, CheckPoll(|s.sent|), ServePoll(|s.sent|, true), Receive(jobs), s1, s2, Answered(s), t);
  }

  lemma CleanPollEffect(s: State, jobs: seq<Job>)
    requires Inv(s) && Ready(s) && Enabled(Answered(s), Receive(jobs))
    ensures var u := Apply(Answered(s), Receive(jobs));
            var n := BatchSize(s.tx.pending, Some(s.maxEvents));
            && Inv(u) && Ready(u) && u.maxEvents == s.maxEvents
            && u.tx.pending == s.tx.pending[n..]
            && u.tx.outstanding.Keys == (s.tx.outstanding.Keys - Elems(s.carry.ack)) + EntryJtis(s.tx.pending[..n])
            && Elems(u.carry.ack) == Finishers(jobs)
            && Jtis(jobs) == EntryJtis(s.tx.pending[..n])
            && (Answered(s).reply.value.moreAvailable <==> u.tx.pending != [])
  {
    var u := Apply(Answered(s), Receive(jobs));
    CleanPollIsARun(s, jobs);
    InvAlways(s, [Send] + ([CheckPoll(|s.sent|)] + ([ServePoll(|s.sent|, true)] + ([Receive(jobs)] + []))), u);
    BatchFacts(s, BatchSize(s.tx.pending, Some(s.maxEvents)));
    AckedAreFinishers(jobs);
  }

  function AllFinishers(batches: seq<seq<Job>>): set<string>
    decreases |batches|
  {
    if batches == [] then {} else Finishers(batches[0]) + AllFinishers(batches[1..])
  }

  /** What `polls` full batches of `size` come to. */
  function Batches(polls: nat, size: nat): nat {
    polls * size
  }

  /** Each poll of a clean run takes a full batch off the queue or empties it: the queue is empty
      after k polls exactly when k times maxEvents covers it. */
  lemma {:induction false} DrainBound(s: State, batches: seq<seq<Job>>, t: State)
    requires Inv(s) && s.maxEvents > 0 && CleanRun(s, batches, t)
    ensures var taken := Batches(|batches|, s.maxEvents);
            t.tx.pending == if taken >= |s.tx.pending| then [] else s.tx.pending[taken..]
    decreases |batches|
  {
    hide Inv, Answered, Apply, Enabled, Finishers, EntryJtis, Ready, Batches;
    Slices(s.tx.pending, s.maxEvents, |batches|);
    if batches != [] {
      var u := Apply(Answered(s), Receive(batches[0]));
      CleanPollEffect(s, batches[0]);
      DrainBound(u, batches[1..], t);
    }
  }

  lemma Slices(p: seq<Entry>, m: nat, k: nat)
    requires m > 0
    ensures Batches(0, m) == 0 && p[0..] == p
    ensures k > 0 ==> Batches(k, m) == Batches(k - 1, m) + m
    ensures k > 0 && Batches(k, m) < |p| ==> p[m..][Batches(k - 1, m)..] == p[Batches(k, m)..]
  {
    if k > 0 {
      assert k * m == (k - 1) * m + m;
    }
  }

  lemma Account<T>(o: set<T>, p: set<T>, batch: set<T>, rest: set<T>, owed: set<T>, now: set<T>, later: set<T>)
    requires p == batch + rest && owed !! p
    ensures (((o - owed) + batch) + rest) - now - later == (o + p) - owed - (now + later)
  {
  }

  /** The account of a clean run: what is outstanding, queued or still to be acked at the end covers
      what was outstanding or queued at the start; what is missing has been acked, and no more. */
  lemma {:induction false} DrainAccount(s: State, batches: seq<seq<Job>>, t: State)
    requires Inv(s) && s.maxEvents > 0 && CleanRun(s, batches, t)
    ensures Inv(t) && t.maxEvents == s.maxEvents
    ensures (t.tx.outstanding.Keys + EntryJtis(t.tx.pending)) - Elems(t.carry.ack) ==
            (s.tx.outstanding.Keys + EntryJtis(s.tx.pending)) - Elems(s.carry.ack) - AllFinishers(batches)
    decreases |batches|
  {
    if batches != [] {
      var n := BatchSize(s.tx.pending, Some(s.maxEvents));
      CleanPollEffect(s, batches[0]);
      DrainAccount(Apply(Answered(s), Receive(batches[0])), batches[1..], t);
      BatchFacts(s, n);
      Account(s.tx.outstanding.Keys, EntryJtis(s.tx.pending), EntryJtis(s.tx.pending[..n]),
              EntryJtis(s.tx.pending[n..]), Elems(s.carry.ack), Finishers(batches[0]), AllFinishers(batches[1..]));
    }
  }

  /** A clean poll on an empty queue: nothing comes, and what was owed is acked. */
  lemma LastPoll(u: State, t: State)
    requires Inv(u) && u.maxEvents > 0 && CleanRun(u, [[]], t) && u.tx.pending == []
    ensures t.tx.pending == [] && t.carry == NOTHING
    ensures t.tx.outstanding.Keys == (u.tx.outstanding.Keys + EntryJtis(u.tx.pending)) - Elems(u.carry.ack)
  {
    assert t == Apply(Answered(u), Receive([]));
    CleanPollEffect(u, []);
    hide Inv, Answered, EntryJtis, Finishers;
    assert u.tx.pending[..0] == [];
    NoEntries();
  }

  lemma NoEntries()
    ensures EntryJtis([]) == {}
  {
  }

  /** One clean poll after the queue is drained settles it: outstanding then holds exactly what was
      outstanding or queued at the start and nobody acked, leftovers of lost replies included. */
  lemma DrainSettles(s: State, batches: seq<seq<Job>>, u: State, t: State)
    requires Inv(s) && s.maxEvents > 0 && CleanRun(s, batches, u)
    requires Batches(|batches|, s.maxEvents) >= |s.tx.pending|
    requires CleanRun(u, [[]], t)
    ensures t.tx.pending == [] && t.carry == NOTHING
    ensures t.tx.outstanding.Keys ==
            (s.tx.outstanding.Keys + EntryJtis(s.tx.pending)) - Elems(s.carry.ack) - AllFinishers(batches)
  {
    DrainBound(s, batches, u);
    DrainAccount(s, batches, u);
    LastPoll(u, t);
    hide Inv, CleanRun, Finishers, EntryJtis;
  }

  // ---------------------------------------------------------------- every ready state can be drained

  /** The SETs that are done with when every SET meets the verdict `verdict` has for it. */
  function DoneWith(jtis: set<string>, verdict: string -> Verdict): set<string> {
    set jti <- jtis | verdict(jti).Finishes()
  }

  predicate MeetsVerdicts(batches: seq<seq<Job>>, verdict: string -> Verdict)
    decreases |batches|
  {
    batches == [] ||
    ((forall job <- batches[0] :: job.verdict == verdict(job.jti)) && MeetsVerdicts(batches[1..], verdict))
  }

  lemma FinishersAreDoneWith(jobs: seq<Job>, verdict: string -> Verdict)
    requires forall job <- jobs :: job.verdict == verdict(job.jti)
    ensures Finishers(jobs) == DoneWith(Jtis(jobs), verdict)
  {
  }

  lemma DoneWithBoth(a: set<string>, b: set<string>, verdict: string -> Verdict)
    ensures DoneWith(a + b, verdict) == DoneWith(a, verdict) + DoneWith(b, verdict)
  {
  }

  /** From every ready state a clean poll is possible, whatever the verdicts on the SETs it brings. */
  lemma CleanPollExists(s: State, verdict: string -> Verdict) returns (jobs: seq<Job>)
    requires Ready(s)
    ensures Enabled(Answered(s), Receive(jobs)) && forall job <- jobs :: job.verdict == verdict(job.jti)
  {
    jobs := JobsFor(Answered(s).reply.value.sets.Keys, verdict);
  }

  /** From every ready state there is a clean run of any number of polls, whatever the verdicts on the
      SETs, and it takes from the queue just the SETs it brings. */
  lemma {:induction false} CleanRunExists(s: State, polls: nat, verdict: string -> Verdict)
    returns (batches: seq<seq<Job>>, t: State)
    requires Inv(s) && Ready(s)
    ensures |batches| == polls && CleanRun(s, batches, t) && MeetsVerdicts(batches, verdict)
    ensures Inv(t) && Ready(t) && t.maxEvents == s.maxEvents
    ensures DoneWith(EntryJtis(s.tx.pending), verdict) ==
            AllFinishers(batches) + DoneWith(EntryJtis(t.tx.pending), verdict)
    decreases polls
  {
    hide Inv, Ready, Answered, Apply, Enabled, EntryJtis, Jtis, Finishers, DoneWith;
    if polls == 0 {
      batches, t := [], s;
    } else {
      var jobs := CleanPollExists(s, verdict);
      CleanPollEffect(s, jobs);
      var u := Apply(Answered(s), Receive(jobs));
      var rest;
      rest, t := CleanRunExists(u, polls - 1, verdict);
      batches := [jobs] + rest;
      assert batches[1..] == rest;
      var n := BatchSize(s.tx.pending, Some(s.maxEvents));
      JtisConcat(s.tx.pending[..n], s.tx.pending[n..]);
      assert s.tx.pending[..n] + s.tx.pending[n..] == s.tx.pending;
      FinishersAreDoneWith(jobs, verdict);
      DoneWithBoth(Jtis(jobs), EntryJtis(u.tx.pending), verdict);
    }
  }

  /** From every ready state, and for all verdicts the SETs may meet, polling drains the stream and
      settles it: nothing is queued or owed any more, and outstanding is exactly what was outstanding
      or queued, had not been acked, and is not done with when its turn comes. */
  lemma DrainFromEveryReadyState(s: State, verdict: string -> Verdict)
    returns (batches: seq<seq<Job>>, u: State, t: State)
    requires Inv(s) && Ready(s)
    ensures CleanRun(s, batches, u) && MeetsVerdicts(batches, verdict) && CleanRun(u, [[]], t)
    ensures t.tx.pending == [] && t.carry == NOTHING
    ensures t.tx.outstanding.Keys ==
            (s.tx.outstanding.Keys + EntryJtis(s.tx.pending)) - Elems(s.carry.ack)
            - DoneWith(EntryJtis(s.tx.pending), verdict)
  {
    var polls := |s.tx.pending|;
    batches, u := CleanRunExists(s, polls, verdict);
    EnoughPolls(polls, s.maxEvents);
    DrainBound(s, batches, u);
    t := PollOfNothing(u);
    DrainSettles(s, batches, u, t);
    NoEntries();
    hide Inv, Ready, CleanRun, MeetsVerdicts, EntryJtis, Batches;
  }

  lemma EnoughPolls(polls: nat, size: nat)
    requires size > 0
    ensures Batches(polls, size) >= polls
  {
    assert polls * size == polls + polls * (size - 1);
  }

  lemma AnsweredReply(s: State)
    requires Ready(s)
    ensures Answered(s).reply == Some(PollReply(s.tx, Request(s.carry.ack, s.carry.setErrs, Some(s.maxEvents))))
  {
    hide AfterPoll, PollReply;
  }

  lemma NothingIsAnswered(u: State)
    requires Ready(u) && u.tx.pending == []
    ensures Enabled(Answered(u), Receive([]))
  {
    hide Ready, Answered;
    AnsweredReply(u);
    assert u.tx.pending[..0] == [];
    assert SetsOf([]) == map[];
    assert Jtis([]) == {};
  }

  lemma PollOfNothing(u: State) returns (t: State)
    requires Ready(u) && u.tx.pending == []
    ensures CleanRun(u, [[]], t)
  {
    hide Ready, Answered, Apply, Enabled;
    NothingIsAnswered(u);
    t := Apply(Answered(u), Receive([]));
    var batches: seq<seq<Job>> := [[]];
    assert batches[1..] == [];
    assert CleanRun(u, batches, t);
  }
}
