/** receiver/poller.go: Run and pollOnce, with the context, the clock and the network as a script. */
module Poller {
  import opened Wrappers
  import opened Int64
  import opened Backoff
  import opened PollWire
  import opened Process

  const DEFAULT_MAX_EVENTS := 100

  /** A Retry-After header, after strconv.Atoi and http.ParseTime have had their say. */
  datatype RetryHeader = Absent | Seconds(n: int64) | Date(fromNow: int64) | Garbage

  function ParseRetryAfter(h: RetryHeader): int64 {
    match h
    case Absent => 0
    case Seconds(n) => if n < 0 then 0 else Wrap(n * SECOND)
    case Date(fromNow) => if fromNow < 0 then 0 else fromNow
    case Garbage => 0
  }

  /** A decoded poll response: its entries in the order their results are recorded. */
  datatype Batch = Batch(jobs: seq<Job>, moreAvailable: bool)

  /** What httpClient.Do comes back with; no body means one that does not decode. */
  datatype Reply = NoReply | Http(status: nat, retryAfter: RetryHeader, body: Option<Batch>)

  datatype Polled = Failed(retryAfter: int64) | Done(carry: Carry, empty: bool, moreAvailable: bool)

  datatype Cancel = Never | BeforePoll | InPoll | InSleep

  /** One turn of the loop: the reply it gets, the jitter drawn for an error sleep, and when, if at
      all, the context ends. */
  datatype Round = Round(reply: Reply, cancel: Cancel, factor: real, overflow: int64)

  predicate GoodRound(r: Round) {
    0.8 <= r.factor <= 1.2
  }

  /** What the outside sees of Run: requests posted and timers started. */
  datatype Event = Posted(request: Request) | Timer(d: int)

  function PollResult(r: Reply): Polled {
    match r
    case NoReply => Failed(0)
    case Http(status, retryAfter, body) =>
      if status == 429 || status == 503 then Failed(ParseRetryAfter(retryAfter))
      else if status / 100 != 2 || body.None? then Failed(0)
      else Done(Outcome(body.value.jobs), body.value.jobs == [], body.value.moreAvailable)
  }

  /** The reply carries an answer to the poll: a status in the 200s and a body that decodes. */
  predicate Answers(r: Reply) {
    r.Http? && 200 <= r.status < 300 && r.body.Some?
  }

  /** The transmitter asked for a pause. */
  predicate Busy(r: Reply) {
    r.Http? && (r.status == 429 || r.status == 503)
  }

  /** What a reply comes to, from the reply alone: it is a success exactly when it answers; a busy
      transmitter's Retry-After is taken as it is, seconds or date; any other failure gives no hint. */
  lemma ReplyMeans(r: Reply)
    ensures PollResult(r).Done? <==> Answers(r)
    ensures Answers(r) ==>
              PollResult(r) == Done(Outcome(r.body.value.jobs), r.body.value.jobs == [], r.body.value.moreAvailable)
    ensures Busy(r) && r.retryAfter.Seconds? && 0 <= r.retryAfter.n * SECOND <= MAX ==>
              PollResult(r) == Failed(r.retryAfter.n * SECOND)
    ensures Busy(r) && r.retryAfter.Seconds? && r.retryAfter.n >= 0 ==>
              PollResult(r).Failed? && (PollResult(r).retryAfter - r.retryAfter.n * SECOND) % TWO_64 == 0
    ensures Busy(r) && r.retryAfter.Date? && r.retryAfter.fromNow >= 0 ==> PollResult(r) == Failed(r.retryAfter.fromNow)
    ensures !Answers(r) && !(Busy(r) && (if r.retryAfter.Seconds? then r.retryAfter.n > 0
                                         else r.retryAfter.Date? && r.retryAfter.fromNow > 0)) ==>
              PollResult(r) == Failed(0)
  {
    if Busy(r) && r.retryAfter.Seconds? && r.retryAfter.n >= 0 {
      WrapIsCongruent(r.retryAfter.n * SECOND);
    }
  }

  /** The variables of Run: what it owes, how many error sleeps it has taken from the error backoff
      since that was reset, and how many idle sleeps from the other. */
  datatype Loop = Loop(carry: Carry, errorTries: nat, idlePolls: nat)

  function AfterRound(l: Loop, p: Polled): Loop {
    match p
    case Failed(retryAfter) => if retryAfter > 0 then l else l.(errorTries := l.errorTries + 1)
    case Done(carry, empty, more) => Loop(carry, 0, if empty && !more then l.idlePolls + 1 else 0)
  }

  function SleepFor(l: Loop, r: Round, idle: Bounds, error: Bounds): int
    requires GoodRound(r)
    requires 0 < idle.initial <= idle.maximum && 0 < error.initial <= error.maximum
  {
    ScheduledDoubles(error.initial, error.maximum, l.errorTries);
    match PollResult(r.reply)
    case Failed(retryAfter) =>
      if retryAfter > 0 then retryAfter
      else Jitter(Scheduled(error.initial, error.maximum, l.errorTries), r.factor, r.overflow)
    case Done(_, empty, more) => if empty && !more then Scheduled(idle.initial, idle.maximum, l.idlePolls) else 0
  }

  /** The events of one turn of Run. */
  function Turn(l: Loop, r: Round, maxEvents: int, idle: Bounds, error: Bounds): seq<Event>
    requires GoodRound(r)
    requires 0 < idle.initial <= idle.maximum && 0 < error.initial <= error.maximum
  {
    if r.cancel.BeforePoll? then []
    else
      var d := SleepFor(l, r, idle, error);
      [Posted(Request(l.carry.ack, l.carry.setErrs, Some(maxEvents)))]
      + if d > 0 && !(PollResult(r.reply).Failed? && r.cancel.InPoll?) then [Timer(d)] else []
  }

  /** The events of Run from its i-th turn on, entered in loop state l. */
  function Trace(l: Loop, rounds: seq<Round>, i: nat, maxEvents: int, idle: Bounds, error: Bounds): seq<Event>
    requires i <= |rounds| && forall k | 0 <= k < |rounds| :: GoodRound(rounds[k])
    requires 0 < idle.initial <= idle.maximum && 0 < error.initial <= error.maximum
    decreases |rounds| - i
  {
    if i == |rounds| then []
    else
      Turn(l, rounds[i], maxEvents, idle, error)
      + if rounds[i].cancel.Never? then
          Trace(AfterRound(l, PollResult(rounds[i].reply)), rounds, i + 1, maxEvents, idle, error)
        else []
  }

  class Poller {
    var maxEvents: int
    const noEvents: Backoff
    const errors: Backoff

    ghost predicate Valid()
      reads this, noEvents, errors
    {
      && maxEvents > 0
      && noEvents != errors && !noEvents.jittered && errors.jittered
      && noEvents.Valid() && errors.Valid()
    }

    constructor ()
      ensures Valid() && fresh(noEvents) && fresh(errors)
      ensures maxEvents == DEFAULT_MAX_EVENTS && noEvents.After(0) && errors.After(0)
    {
      maxEvents := DEFAULT_MAX_EVENTS;
      noEvents := new Backoff(SECOND, 300 * SECOND, false);
      errors := new Backoff(SECOND, 3600 * SECOND, true);
    }

    method WithMaxEvents(n: int)
      requires Valid()
      modifies this
      ensures Valid() && maxEvents == if n > 0 then n else old(maxEvents)
    {
      if n > 0 {
        maxEvents := n;
      }
    }

    method PollOnce(reply: Reply) returns (p: Polled)
      ensures p == PollResult(reply)
      ensures p.Done? <==> Answers(reply)
      ensures p.Done? ==>
                && p.carry == Outcome(reply.body.value.jobs) && (p.empty <==> reply.body.value.jobs == [])
                && p.moreAvailable == reply.body.value.moreAvailable
      ensures p.Failed? && !Busy(reply) ==> p.retryAfter == 0
    {
      if reply.NoReply? {
        return Failed(0);
      }
      if reply.status == 429 || reply.status == 503 {
        return Failed(ParseRetryAfter(reply.retryAfter));
      }
      if reply.status / 100 != 2 {
        return Failed(0);
      }
      if reply.body.None? {
        return Failed(0);
      }
      var batch := reply.body.value;
      var carry := ProcessSerially(batch.jobs);
      p := Done(carry, |batch.jobs| == 0, batch.moreAvailable);
    }

    /** The part of a turn of Run between its poll and its sleep. */
    method Settle(p: Polled, r: Round, owed: Carry, ghost l: Loop) returns (next: Carry, sleep: int64)
      requires Valid() && GoodRound(r) && p == PollResult(r.reply) && owed == l.carry
      requires errors.After(l.errorTries) && noEvents.After(l.idlePolls)
      modifies noEvents, errors
      ensures Valid()
      ensures noEvents.initial == old(noEvents.initial) && noEvents.maximum == old(noEvents.maximum)
      ensures errors.initial == old(errors.initial) && errors.maximum == old(errors.maximum)
      ensures var m := AfterRound(l, p);
              next == m.carry && errors.After(m.errorTries) && noEvents.After(m.idlePolls)
      ensures sleep ==
              SleepFor(l, r, Bounds(noEvents.initial, noEvents.maximum), Bounds(errors.initial, errors.maximum))
    {
      hide Jitter, Scheduled;
      next, sleep := owed, 0;
      match p {
        case Failed(retryAfter) =>
          sleep := retryAfter;
          if sleep <= 0 {
            sleep := errors.Next(r.factor, r.overflow);
          }
        case Done(carry, empty, more) =>
          errors.Reset();
          assert noEvents.After(l.idlePolls);
          next := carry;
          if more {
            noEvents.Reset();
          } else if empty {
            sleep := noEvents.Next(r.factor, r.overflow);
          } else {
            noEvents.Reset();
          }
      }
    }

    /** Run posts and sleeps as Trace says, whatever the replies, and leaves both backoffs usable. */
    method Run(rounds: seq<Round>, ghost start: Loop) returns (events: seq<Event>)
      requires Valid() && start.carry == NOTHING
      requires errors.After(start.errorTries) && noEvents.After(start.idlePolls)
      requires forall i | 0 <= i < |rounds| :: GoodRound(rounds[i])
      modifies noEvents, errors
      ensures Valid()
      ensures events == Trace(start, rounds, 0, maxEvents, Bounds(old(noEvents.initial), old(noEvents.maximum)),
                              Bounds(old(errors.initial), old(errors.maximum)))
    {
      ghost var idle := Bounds(noEvents.initial, noEvents.maximum);
      ghost var error := Bounds(errors.initial, errors.maximum);
      events := [];
      var next := NOTHING;
      ghost var l := start;
      for i := 0 to |rounds|
        invariant Valid()
        invariant idle == Bounds(noEvents.initial, noEvents.maximum) && error == Bounds(errors.initial, errors.maximum)
        invariant next == l.carry && errors.After(l.errorTries) && noEvents.After(l.idlePolls)
        invariant Trace(start, rounds, 0, maxEvents, idle, error) ==
                  events + Trace(l, rounds, i, maxEvents, idle, error)
      {
        var r := rounds[i];
        if r.cancel.BeforePoll? {
          return;
        }
        var turn := [Posted(Request(next.ack, next.setErrs, Some(maxEvents)))];
        var p := PollOnce(r.reply);
        if p.Failed? && r.cancel.InPoll? {
          return events + turn;
        }
        var sleep;
        next, sleep := Settle(p, r, next, l);
        if sleep > 0 {
          turn := turn + [Timer(sleep)];
        }
        assert turn == Turn(l, r, maxEvents, idle, error);
        if !r.cancel.Never? {
          return events + turn;
        }
        l := AfterRound(l, p);
        Associate(events, turn, Trace(l, rounds, i + 1, maxEvents, idle, error));
        events := events + turn;
      }
    }
  }

  lemma Associate<T>(a: seq<T>, b: seq<T>, c: seq<T>)
    ensures a + (b + c) == (a + b) + c
  {
  }

  // ---------------------------------------------------------------- what a run of Run shows

  /** The loop state in which Run enters its i-th turn. */
  function LoopState(start: Loop, rounds: seq<Round>, i: nat): Loop
    requires i <= |rounds|
  {
    if i == 0 then start else AfterRound(LoopState(start, rounds, i - 1), PollResult(rounds[i - 1].reply))
  }

  /** Nothing new and nothing hinted. */
  predicate Idle(r: Round) {
    var p := PollResult(r.reply);
    p.Done? && p.empty && !p.moreAvailable
  }

  predicate Succeeds(r: Round) {
    PollResult(r.reply).Done?
  }

  /** A failure without a Retry-After that can be honoured. */
  predicate Unguided(r: Round) {
    var p := PollResult(r.reply);
    p.Failed? && p.retryAfter <= 0
  }

  function Count(rounds: seq<Round>, lo: nat, hi: nat, p: Round -> bool): nat
    requires lo <= hi <= |rounds|
    decreases hi
  {
    if lo == hi then 0 else Count(rounds, lo, hi - 1, p) + if p(rounds[hi - 1]) then 1 else 0
  }

  /** Both counters, from the history alone: idle polls since the last poll that succeeded without
      being idle (failures in between do not matter), and unguided failures since the last success. */
  lemma {:induction false} Counters(start: Loop, rounds: seq<Round>, lo: nat, i: nat)
    requires lo <= i <= |rounds|
    ensures LoopState(start, rounds, lo).idlePolls == 0 &&
            (forall k | lo <= k < i :: Succeeds(rounds[k]) ==> Idle(rounds[k])) ==>
              LoopState(start, rounds, i).idlePolls == Count(rounds, lo, i, Idle)
    ensures LoopState(start, rounds, lo).errorTries == 0 && (forall k | lo <= k < i :: !Succeeds(rounds[k])) ==>
              LoopState(start, rounds, i).errorTries == Count(rounds, lo, i, Unguided)
  {
    if lo < i {
      Counters(start, rounds, lo, i - 1);
    }
  }

  /** What Run owes before its i-th turn is the outcome of the last batch it received, however many
      polls have failed since. */
  lemma {:induction false} OwesLastBatch(start: Loop, rounds: seq<Round>, lo: nat, i: nat)
    requires lo < i <= |rounds| && Succeeds(rounds[lo]) && forall k | lo < k < i :: !Succeeds(rounds[k])
    ensures LoopState(start, rounds, i).carry == Outcome(rounds[lo].reply.body.value.jobs)
  {
    if lo + 1 < i {
      OwesLastBatch(start, rounds, lo, i - 1);
    }
  }

  /** Only an answer changes what Run owes, and it starts the error backoff over; whatever else comes
      back, from no reply to a 4xx with a well-formed body, leaves what is owed as it was. */
  lemma OnlyAnswersSettle(start: Loop, rounds: seq<Round>, i: nat)
    requires i < |rounds|
    ensures var now, next, r := LoopState(start, rounds, i), LoopState(start, rounds, i + 1), rounds[i].reply;
      && next.carry == (if Answers(r) then Outcome(r.body.value.jobs) else now.carry)
      && (Answers(r) ==> next.errorTries == 0)
      && (!Answers(r) ==> next.idlePolls == now.idlePolls)
  {
    hide PollResult;
    ReplyMeans(rounds[i].reply);
  }

  /** The events of the first n turns, one turn after the other. */
  function Turns(start: Loop, rounds: seq<Round>, n: nat, maxEvents: int, idle: Bounds, error: Bounds): seq<Event>
    requires n <= |rounds| && forall k | 0 <= k < |rounds| :: GoodRound(rounds[k])
    requires 0 < idle.initial <= idle.maximum && 0 < error.initial <= error.maximum
  {
    if n == 0 then []
    else
      Turns(start, rounds, n - 1, maxEvents, idle, error)
      + Turn(LoopState(start, rounds, n - 1), rounds[n - 1], maxEvents, idle, error)
  }

  /** While the context lives the events of Run are those of its turns: first those of the first i
      turns, then what Run does from there in the loop state they lead to. */
  lemma {:induction false} TraceIsTurns(
      start: Loop, rounds: seq<Round>, i: nat, maxEvents: int, idle: Bounds, error: Bounds)
    requires i <= |rounds| && forall k | 0 <= k < |rounds| :: GoodRound(rounds[k])
    requires 0 < idle.initial <= idle.maximum && 0 < error.initial <= error.maximum
    requires forall k | 0 <= k < i :: rounds[k].cancel.Never?
    ensures Trace(start, rounds, 0, maxEvents, idle, error)
            == Turns(start, rounds, i, maxEvents, idle, error)
               + Trace(LoopState(start, rounds, i), rounds, i, maxEvents, idle, error)
  {
    hide Turn, PollResult;
    if i > 0 {
      TraceIsTurns(start, rounds, i - 1, maxEvents, idle, error);
      var before := Turns(start, rounds, i - 1, maxEvents, idle, error);
      var turn := Turn(LoopState(start, rounds, i - 1), rounds[i - 1], maxEvents, idle, error);
      Associate(before, turn, Trace(LoopState(start, rounds, i), rounds, i, maxEvents, idle, error));
    }
  }

  /** What stands in the trace where the i-th turn begins. */
  lemma TurnStandsAt(start: Loop, rounds: seq<Round>, i: nat, maxEvents: int, idle: Bounds, error: Bounds)
    requires i < |rounds| && forall k | 0 <= k < |rounds| :: GoodRound(rounds[k])
    requires 0 < idle.initial <= idle.maximum && 0 < error.initial <= error.maximum
    requires (forall k | 0 <= k < i :: rounds[k].cancel.Never?) && !rounds[i].cancel.BeforePoll?
    ensures var events := Trace(start, rounds, 0, maxEvents, idle, error);
      var p := |Turns(start, rounds, i, maxEvents, idle, error)|;
      var l := LoopState(start, rounds, i);
      var d := SleepFor(l, rounds[i], idle, error);
      && p < |events| && events[p] == Posted(Request(l.carry.ack, l.carry.setErrs, Some(maxEvents)))
      && (if d > 0 && !(PollResult(rounds[i].reply).Failed? && rounds[i].cancel.InPoll?)
          then p + 1 < |events| && events[p + 1] == Timer(d)
          else p + 1 < |events| ==> events[p + 1].Posted?)
  {
    hide SleepFor, PollResult, AfterRound, LoopState, Turns;
    TraceIsTurns(start, rounds, i, maxEvents, idle, error);
  }

  /** A request that gets no answer is posted again as it was: the i-th and the next turn of Run post
      the same acks and errors. */
  lemma UnansweredIsPostedAgain(
      start: Loop, rounds: seq<Round>, i: nat, maxEvents: int, idle: Bounds, error: Bounds)
    requires i + 1 < |rounds| && forall k | 0 <= k < |rounds| :: GoodRound(rounds[k])
    requires 0 < idle.initial <= idle.maximum && 0 < error.initial <= error.maximum
    requires (forall k | 0 <= k <= i :: rounds[k].cancel.Never?) && !rounds[i + 1].cancel.BeforePoll?
    requires !Answers(rounds[i].reply)
    ensures var events := Trace(start, rounds, 0, maxEvents, idle, error);
      var p := |Turns(start, rounds, i, maxEvents, idle, error)|;
      var q := |Turns(start, rounds, i + 1, maxEvents, idle, error)|;
      p < q < |events| && events[p].Posted? && events[q] == events[p]
  {
    hide Trace, Turn, PollResult, SleepFor, LoopState;
    OnlyAnswersSettle(start, rounds, i);
    TurnStandsAt(start, rounds, i, maxEvents, idle, error);
    TurnStandsAt(start, rounds, i + 1, maxEvents, idle, error);
    TurnPosts(LoopState(start, rounds, i), rounds[i], maxEvents, idle, error);
  }

  lemma TurnPosts(l: Loop, r: Round, maxEvents: int, idle: Bounds, error: Bounds)
    requires GoodRound(r) && !r.cancel.BeforePoll?
    requires 0 < idle.initial <= idle.maximum && 0 < error.initial <= error.maximum
    ensures Turn(l, r, maxEvents, idle, error) != []
  {
  }

  /** Run ends in the turn in which the context does: after its earlier turns comes nothing, or its
      request, or its request and the timer that is cut short. */
  lemma CancelEndsRun(start: Loop, rounds: seq<Round>, i: nat, maxEvents: int, idle: Bounds, error: Bounds)
    requires i < |rounds| && forall k | 0 <= k < |rounds| :: GoodRound(rounds[k])
    requires 0 < idle.initial <= idle.maximum && 0 < error.initial <= error.maximum
    requires (forall k | 0 <= k < i :: rounds[k].cancel.Never?) && !rounds[i].cancel.Never?
    ensures var events := Trace(start, rounds, 0, maxEvents, idle, error);
      var p := |Turns(start, rounds, i, maxEvents, idle, error)|;
      var l := LoopState(start, rounds, i);
      var posted := Posted(Request(l.carry.ack, l.carry.setErrs, Some(maxEvents)));
      var d := SleepFor(l, rounds[i], idle, error);
      && p <= |events|
      && events[p..] ==
         if rounds[i].cancel.BeforePoll? then []
         else if d <= 0 || (rounds[i].cancel.InPoll? && !Answers(rounds[i].reply)) then [posted]
         else [posted, Timer(d)]
  {
    hide SleepFor, PollResult, AfterRound, LoopState, Turns;
    ReplyMeans(rounds[i].reply);
    TraceIsTurns(start, rounds, i, maxEvents, idle, error);
  }

  /** The idle cadence: right after the request of an idle poll stands a timer of initial doubled once
      for every idle poll since the last poll that brought or announced something, capped at the
      maximum. */
  lemma IdleCadence(start: Loop, rounds: seq<Round>, lo: nat, i: nat, maxEvents: int, idle: Bounds, error: Bounds)
    requires forall k | 0 <= k < |rounds| :: GoodRound(rounds[k])
    requires 0 < idle.initial <= idle.maximum && 0 < error.initial <= error.maximum
    requires lo <= i < |rounds| && (forall k | 0 <= k < i :: rounds[k].cancel.Never?)
    requires !rounds[i].cancel.BeforePoll? && Idle(rounds[i])
    requires if lo == 0 then start.idlePolls == 0 else Succeeds(rounds[lo - 1]) && !Idle(rounds[lo - 1])
    requires forall k | lo <= k < i :: Succeeds(rounds[k]) ==> Idle(rounds[k])
    ensures var events := Trace(start, rounds, 0, maxEvents, idle, error);
      var p := |Turns(start, rounds, i, maxEvents, idle, error)|;
      var owed := LoopState(start, rounds, i).carry;
      && p + 1 < |events|
      && events[p] == Posted(Request(owed.ack, owed.setErrs, Some(maxEvents)))
      && events[p + 1] == Timer(Min(idle.initial * Pow2(Count(rounds, lo, i, Idle)), idle.maximum))
  {
    hide Trace, Turns;
    TurnStandsAt(start, rounds, i, maxEvents, idle, error);
    Counters(start, rounds, lo, i);
    ScheduledDoubles(idle.initial, idle.maximum, Count(rounds, lo, i, Idle));
  }

  /** The error cadence: right after the request of a failed poll stands the timer of its sleep, if that
      is positive, and else the next request. Without a positive Retry-After the sleep is initial
      doubled once for every such failure since the last success, capped at the maximum and jittered;
      a positive Retry-After is slept as it is and does not count. */
  lemma ErrorCadence(start: Loop, rounds: seq<Round>, lo: nat, i: nat, maxEvents: int, idle: Bounds, error: Bounds)
    requires forall k | 0 <= k < |rounds| :: GoodRound(rounds[k])
    requires 0 < idle.initial <= idle.maximum && 0 < error.initial <= error.maximum
    requires lo <= i < |rounds| && (forall k | 0 <= k < i :: rounds[k].cancel.Never?)
    requires !rounds[i].cancel.BeforePoll? && !rounds[i].cancel.InPoll? && !Succeeds(rounds[i])
    requires if lo == 0 then start.errorTries == 0 else Succeeds(rounds[lo - 1])
    requires forall k | lo <= k < i :: !Succeeds(rounds[k])
    ensures var events := Trace(start, rounds, 0, maxEvents, idle, error);
      var p := |Turns(start, rounds, i, maxEvents, idle, error)|;
      var owed := LoopState(start, rounds, i).carry;
      var d := SleepFor(LoopState(start, rounds, i), rounds[i], idle, error);
      var ideal := Min(error.initial * Pow2(Count(rounds, lo, i, Unguided)), error.maximum);
      && p < |events| && events[p] == Posted(Request(owed.ack, owed.setErrs, Some(maxEvents)))
      && (if d > 0 then p + 1 < |events| && events[p + 1] == Timer(d) else p + 1 < |events| ==> events[p + 1].Posted?)
      && (if Unguided(rounds[i]) then d >= 0 && (6 * ideal <= 5 * MAX ==> WithinFifth(d, ideal))
          else d == PollResult(rounds[i].reply).retryAfter)
  {
    hide Trace, Turns;
    TurnStandsAt(start, rounds, i, maxEvents, idle, error);
    Counters(start, rounds, lo, i);
    ScheduledDoubles(error.initial, error.maximum, Count(rounds, lo, i, Unguided));
  }
}

/** The loop of Run plays the Poller's part in the protocol. */
module RunInProtocol {
  import opened Wrappers
  import opened PollWire
  import opened Process
  import opened PollProtocol
  import P = Poller

  /** The polls that end in these steps end as the rounds say. */
  ghost predicate Matches(steps: seq<Step>, rounds: seq<P.Round>)
    decreases |steps|
  {
    if steps == [] then rounds == []
    else
      match steps[0]
      case Fail => rounds != [] && P.PollResult(rounds[0].reply).Failed? && Matches(steps[1..], rounds[1..])
      case Receive(jobs) =>
        && rounds != [] && P.Succeeds(rounds[0]) && rounds[0].reply.body.value.jobs == jobs
        && Matches(steps[1..], rounds[1..])
      case _ => Matches(steps[1..], rounds)
  }

  /** The requests Run posts from loop state l on; `open` if it is waiting for a reply at the end. */
  function Posts(l: P.Loop, rounds: seq<P.Round>, maxEvents: int, open: bool): seq<Request>
    decreases |rounds|
  {
    var post := [Request(l.carry.ack, l.carry.setErrs, Some(maxEvents))];
    if rounds == [] then if open then post else []
    else post + Posts(P.AfterRound(l, P.PollResult(rounds[0].reply)), rounds[1..], maxEvents, open)
  }

  /** In any run of the protocol, with whatever the Transmitter and the network do in between, what
      the Poller owes is what the loop of Run owes... */
  lemma {:induction false} OwesAsRun(s: State, steps: seq<Step>, t: State, l: P.Loop, rounds: seq<P.Round>)
    requires Runs(s, steps, t) && Matches(steps, rounds) && s.carry == l.carry
    ensures t.carry == P.LoopState(l, rounds, |rounds|).carry
    decreases |steps|
  {
    if steps != [] {
      var u := Apply(s, steps[0]);
      if steps[0].Fail? || steps[0].Receive? {
        OwesAsRun(u, steps[1..], t, P.AfterRound(l, P.PollResult(rounds[0].reply)), rounds[1..]);
        LoopStateShift(l, rounds, |rounds|);
      } else {
        OwesAsRun(u, steps[1..], t, l, rounds);
      }
    }
  }

  /** What one step does to the Poller's side of the wire. */
  lemma WireStep(s: State, step: Step)
    requires Enabled(s, step) && (s.reply.Some? ==> s.current.Some?)
    ensures var u := Apply(s, step);
      && u.maxEvents == s.maxEvents && (u.reply.Some? ==> u.current.Some?)
      && (match step
          case Send => s.current.None? && u.current.Some? && u.carry == s.carry
                       && u.sent == s.sent + [Request(s.carry.ack, s.carry.setErrs, Some(s.maxEvents))]
          case Fail => s.current.Some? && u.current.None? && u.carry == s.carry && u.sent == s.sent
          case Receive(jobs) => s.current.Some? && u.current.None? && u.carry == Outcome(jobs) && u.sent == s.sent
          case _ => u.current == s.current && u.carry == s.carry && u.sent == s.sent)
  {
  }

  /** ...and the requests it puts on the wire are those Run posts. */
  lemma {:induction false} PostsAsRun(s: State, steps: seq<Step>, t: State, l: P.Loop, rounds: seq<P.Round>)
    requires Runs(s, steps, t) && Matches(steps, rounds) && s.carry == l.carry
    requires s.reply.Some? ==> s.current.Some?
    ensures var posts := Posts(l, rounds, s.maxEvents, t.current.Some?);
            if s.current.None? then t.sent == s.sent + posts else posts != [] && t.sent == s.sent + posts[1..]
    decreases |steps|
  {
    hide Apply, Enabled;
    if steps != [] {
      var u := Apply(s, steps[0]);
      WireStep(s, steps[0]);
      var posts := Posts(l, rounds, s.maxEvents, t.current.Some?);
      if steps[0].Fail? || steps[0].Receive? {
        PostsAsRun(u, steps[1..], t, P.AfterRound(l, P.PollResult(rounds[0].reply)), rounds[1..]);
      } else {
        PostsAsRun(u, steps[1..], t, l, rounds);
        if steps[0].Send? {
          assert posts == [posts[0]] + posts[1..];
        }
      }
    }
  }

  lemma {:induction false} LoopStateShift(l: P.Loop, rounds: seq<P.Round>, i: nat)
    requires 0 < i <= |rounds|
    ensures P.LoopState(l, rounds, i) == P.LoopState(P.AfterRound(l, P.PollResult(rounds[0].reply)), rounds[1..], i - 1)
  {
    if i > 1 {
      LoopStateShift(l, rounds, i - 1);
      assert rounds[1..][i - 2] == rounds[i - 1];
    }
  }
}
