/** receiver/verification.go: the table of in-flight challenges and the sections that touch it. */
module ChallengeTable {
  import opened Wrappers

  const EVENT_TYPE_VERIFICATION := "https://schemas.openid.net/secevent/ssf/event-type/verification"

  /** One member of a SET's events claim, as far as the wrapper decodes it. */
  datatype Event = Undecodable | Event(state: string)

  /** A SET payload. `id` tells SETs with the same claims apart. */
  datatype Payload = Opaque(id: nat) | Claims(id: nat, events: map<string, Event>)

  function ExtractState(p: Payload): (r: Option<string>)
    ensures r.Some? ==> r.value != ""
  {
    if p.Claims? && EVENT_TYPE_VERIFICATION in p.events then
      match p.events[EVENT_TYPE_VERIFICATION]
      case Undecodable => None
      case Event(state) => if state == "" then None else Some(state)
    else None
  }

  /** The slot a payload matches. */
  function Match<W>(pending: map<string, W>, p: Payload): Option<W> {
    match ExtractState(p)
    case Some(state) => if state in pending then Some(pending[state]) else None
    case None => None
  }

  function AfterMatch<W>(pending: map<string, W>, p: Payload): map<string, W> {
    match ExtractState(p)
    case Some(state) => pending - {state}
    case None => pending
  }

  /** The SET carries a verification event with this state. */
  predicate Carries(p: Payload, state: string) {
    state != "" && p.Claims? && EVENT_TYPE_VERIFICATION in p.events && p.events[EVENT_TYPE_VERIFICATION] == Event(state)
  }

  /** A SET matches the waiter registered under the state it carries; after that no waiter is left under
      that state, and every other one still is. A SET that carries none matches nothing. */
  lemma MatchIff<W>(pending: map<string, W>, p: Payload, state: string)
    ensures Carries(p, state) ==> Match(pending, p) == if state in pending then Some(pending[state]) else None
    ensures (forall s :: !Carries(p, s)) ==> Match(pending, p) == None
    ensures state in AfterMatch(pending, p) <==> state in pending && !Carries(p, state)
    ensures state in AfterMatch(pending, p) ==> AfterMatch(pending, p)[state] == pending[state]
    ensures ExtractState(p) == Some(state) <==> Carries(p, state)
  {
    if ExtractState(p).Some? {
      assert Carries(p, ExtractState(p).value);
    }
  }

  /** chan []byte with capacity one. */
  class Waiter {
    var buffer: seq<Payload>

    constructor ()
      ensures buffer == []
    {
      buffer := [];
    }
  }

  class VerificationChallenger {
    var pending: map<string, Waiter>

    /** Between the calls of one goroutine every waiter in the table is still empty, and no two
        states share one. */
    ghost predicate Valid()
      reads this, pending.Values
    {
      && (forall s <- pending :: pending[s].buffer == [])
      && (forall s, t | s in pending && t in pending && s != t :: pending[s] != pending[t])
    }

    constructor ()
      ensures Valid() && pending == map[]
    {
      pending := map[];
    }

    method Register(state: string) returns (r: Option<Waiter>)
      requires Valid()
      modifies this
      ensures Valid()
      ensures state in old(pending) ==> r == None && pending == old(pending)
      ensures state !in old(pending) ==> r.Some? && fresh(r.value) && pending == old(pending)[state := r.value]
    {
      if state in pending {
        return None;
      }
      var ch := new Waiter();
      pending := pending[state := ch];
      r := Some(ch);
    }

    method Unregister(state: string)
      requires Valid()
      modifies this
      ensures Valid() && pending == old(pending) - {state}
    {
      pending := pending - {state};
    }

    /** The section of intercept under the lock. */
    method TakeMatch(p: Payload) returns (r: Option<Waiter>)
      requires Valid()
      modifies this
      ensures Valid()
      ensures r == Match(old(pending), p) && pending == AfterMatch(old(pending), p)
      ensures r.Some? ==> r.value.buffer == [] && r.value !in pending.Values
    {
      var state := ExtractState(p);
      if state.None? {
        return None;
      }
      if state.value in pending {
        r := Some(pending[state.value]);
        pending := pending - {state.value};
      } else {
        r := None;
        assert pending - {state.value} == pending;
      }
    }

    /** The Sink that WrapSink returns: the payload goes to its waiter, else downstream. */
    method Deliver(p: Payload) returns (downstream: bool)
      requires Valid()
      modifies this, pending.Values
      ensures Valid()
      ensures pending == AfterMatch(old(pending), p)
      ensures downstream <==> Match(old(pending), p).None?
      ensures !downstream ==> Match(old(pending), p).value.buffer == [p]
      ensures forall w <- old(pending.Values) :: Some(w) != Match(old(pending), p) ==> w.buffer == []
    {
      var w := TakeMatch(p);
      if w.None? {
        return true;
      }
      w.value.buffer := w.value.buffer + [p];
      downstream := false;
    }
  }
}

/** The verification handshake with challenges and deliveries interleaved at every lock and channel
    operation. Challenge i owns channel i. */
module ChallengeProtocol {
  import opened Wrappers
  import opened ChallengeTable

  datatype Failure = PostError | Cancelled | TimedOut

  datatype Phase =
    | Posting
    | Waiting
    | Returning(result: Result<Payload, Failure>) // the deferred unregister is still to run
    | Returned(result: Result<Payload, Failure>)

  datatype Challenge = Challenge(state: string, phase: Phase)

  datatype Progress =
    | Arrived
    | Holding(channel: nat) // matched under the lock, not yet sent
    | Sent(channel: nat)
    | Downstream

  datatype Delivery = Delivery(payload: Payload, progress: Progress)

  datatype State = State(
    pending: map<string, nat>,
    challenges: seq<Challenge>,
    buffers: seq<seq<Payload>>,
    deliveries: seq<Delivery>)

  const INIT := State(map[], [], [], [])

  datatype Step =
    | Begin(state: string)          // Challenge up to and including a successful register
    | Posted(i: nat)
    | PostFailed(i: nat)
    | Arrive(payload: Payload)
    | Lookup(d: nat)                // intercept under the lock
    | SendOn(d: nat)                // intercept's channel send, outside the lock
    | Take(i: nat)                  // wait receives
    | GiveUp(i: nat, why: Failure)  // wait sees the context or the timer first
    | Unregister(i: nat)            // the deferred cleanup; Challenge returns

  predicate Enabled(s: State, step: Step) {
    match step
    case Begin(state) => state !in s.pending
    case Posted(i) => i < |s.challenges| && s.challenges[i].phase.Posting?
    case PostFailed(i) => i < |s.challenges| && s.challenges[i].phase.Posting?
    case Arrive(_) => true
    case Lookup(d) => d < |s.deliveries| && s.deliveries[d].progress.Arrived?
    case SendOn(d) =>
      && d < |s.deliveries| && s.deliveries[d].progress.Holding?
      && s.deliveries[d].progress.channel < |s.buffers| && s.buffers[s.deliveries[d].progress.channel] == []
    case Take(i) => i < |s.challenges| && i < |s.buffers| && s.challenges[i].phase.Waiting? && s.buffers[i] != []
    case GiveUp(i, _) => i < |s.challenges| && s.challenges[i].phase.Waiting?
    case Unregister(i) => i < |s.challenges| && s.challenges[i].phase.Returning?
  }

  function SetPhase(s: State, i: nat, phase: Phase): State
    requires i < |s.challenges|
  {
    s.(challenges := s.challenges[i := s.challenges[i].(phase := phase)])
  }

  function SetProgress(s: State, d: nat, progress: Progress): State
    requires d < |s.deliveries|
  {
    s.(deliveries := s.deliveries[d := s.deliveries[d].(progress := progress)])
  }

  function Apply(s: State, step: Step): State
    requires Enabled(s, step)
  {
    match step
    case Begin(state) =>
      s.(pending := s.pending[state := |s.challenges|],
         challenges := s.challenges + [Challenge(state, Posting)], buffers := s.buffers + [[]])
    case Posted(i) => SetPhase(s, i, Waiting)
    case PostFailed(i) => SetPhase(s, i, Returning(Err(PostError)))
    case Arrive(payload) => s.(deliveries := s.deliveries + [Delivery(payload, Arrived)])
    case Lookup(d) =>
      var p := s.deliveries[d].payload;
      (match Match(s.pending, p)
       case Some(channel) => SetProgress(s, d, Holding(channel))
       case None => SetProgress(s, d, Downstream)).(pending := AfterMatch(s.pending, p))
    case SendOn(d) =>
      var channel := s.deliveries[d].progress.channel;
      SetProgress(s, d, Sent(channel)).(buffers := s.buffers[channel := [s.deliveries[d].payload]])
    case Take(i) => SetPhase(s, i, Returning(Ok(s.buffers[i][0]))).(buffers := s.buffers[i := []])
    case GiveUp(i, why) => SetPhase(s, i, Returning(Err(why)))
    case Unregister(i) =>
      SetPhase(s, i, Returned(s.challenges[i].phase.result)).(pending := s.pending - {s.challenges[i].state})
  }

  ghost predicate Runs(s: State, steps: seq<Step>, t: State)
    decreases |steps|
  {
    if steps == [] then s == t
    else Enabled(s, steps[0]) && Runs(Apply(s, steps[0]), steps[1..], t)
  }

  predicate HasResult(c: Challenge) {
    c.phase.Returning? || c.phase.Returned?
  }

  /** The channel a delivery was matched to. */
  predicate On(x: Delivery, channel: nat) {
    (x.progress.Holding? || x.progress.Sent?) && x.progress.channel == channel
  }

  /** The table maps a state to the challenge that registered it, which has not returned. */
  ghost predicate TableInv(s: State) {
    && |s.buffers| == |s.challenges|
    && forall state <- s.pending ::
         && s.pending[state] < |s.challenges|
         && s.challenges[s.pending[state]].state == state
         && !s.challenges[s.pending[state]].phase.Returned?
  }

  /** A channel is in the table or claimed by one delivery, not both, and by its own state's SET. */
  ghost predicate ClaimInv(s: State) {
    (forall d | 0 <= d < |s.deliveries| :: ClaimOk(s, s.deliveries[d])) && Unshared(s)
  }

  ghost predicate ClaimOk(s: State, x: Delivery) {
    x.progress.Holding? || x.progress.Sent? ==>
      && x.progress.channel < |s.challenges|
      && ExtractState(x.payload) == Some(s.challenges[x.progress.channel].state)
      && x.progress.channel !in s.pending.Values
  }

  ghost predicate Unshared(s: State) {
    forall d, e, channel | 0 <= d < e < |s.deliveries| ::
      !(On(s.deliveries[d], channel) && On(s.deliveries[e], channel))
  }

  /** A sent payload is in its channel or has been returned by its Challenge, and nothing else is. */
  ghost predicate ChannelInv(s: State) {
    && (forall d | 0 <= d < |s.deliveries| && s.deliveries[d].progress.Sent? :: InChannelOrReturned(s, d))
    && (forall i | 0 <= i < |s.buffers| :: BufferOk(s, i))
    && (forall i | 0 <= i < |s.challenges| :: ResultOk(s, i))
  }

  ghost predicate BufferOk(s: State, i: nat)
    requires i < |s.buffers|
  {
    s.buffers[i] != [] ==> |s.buffers[i]| == 1 && WasSent(s, s.buffers[i][0], i)
  }

  ghost predicate ResultOk(s: State, i: nat)
    requires i < |s.challenges|
  {
    HasResult(s.challenges[i]) && s.challenges[i].phase.result.Ok? ==> WasSent(s, s.challenges[i].phase.result.value, i)
  }

  ghost predicate InChannelOrReturned(s: State, d: nat)
    requires d < |s.deliveries| && s.deliveries[d].progress.Sent?
  {
    var i := s.deliveries[d].progress.channel;
    i < |s.buffers| && i < |s.challenges| &&
    if s.buffers[i] == [] then HasResult(s.challenges[i]) && s.challenges[i].phase.result == Ok(s.deliveries[d].payload)
    else s.buffers[i] == [s.deliveries[d].payload]
  }

  ghost predicate WasSent(s: State, p: Payload, channel: nat) {
    exists d | 0 <= d < |s.deliveries| :: s.deliveries[d] == Delivery(p, Sent(channel))
  }

  ghost predicate Inv(s: State) {
    TableInv(s) && ClaimInv(s) && ChannelInv(s)
  }

  lemma TableInvHolds(s: State, step: Step)
    requires TableInv(s) && Enabled(s, step)
    ensures TableInv(Apply(s, step))
  {
  }

  lemma ClaimOkHolds(s: State, step: Step, d: nat)
    requires TableInv(s) && Enabled(s, step) && d < |Apply(s, step).deliveries|
    requires d < |s.deliveries| ==> ClaimOk(s, s.deliveries[d])
    requires step.Lookup? ==> ClaimInv(s)
    ensures ClaimOk(Apply(s, step), Apply(s, step).deliveries[d])
  {
  }

  lemma UnsharedHolds(s: State, step: Step)
    requires TableInv(s) && ClaimInv(s) && Enabled(s, step)
    ensures Unshared(Apply(s, step))
  {
    assert forall d, channel | 0 <= d < |s.deliveries| && On(s.deliveries[d], channel) ::
        ClaimOk(s, s.deliveries[d]) && channel !in s.pending.Values;
    if step.Lookup? && Match(s.pending, s.deliveries[step.d].payload).Some? {
      assert Match(s.pending, s.deliveries[step.d].payload).value in s.pending.Values;
    }
  }

  lemma ClaimInvHolds(s: State, step: Step)
    requires Inv(s) && Enabled(s, step)
    ensures ClaimInv(Apply(s, step))
  {
    UnsharedHolds(s, step);
    forall d | 0 <= d < |Apply(s, step).deliveries|
      ensures ClaimOk(Apply(s, step), Apply(s, step).deliveries[d])
    {
      ClaimOkHolds(s, step, d);
    }
  }

  lemma WasSentStays(s: State, step: Step, p: Payload, channel: nat)
    requires Enabled(s, step) && WasSent(s, p, channel)
    ensures WasSent(Apply(s, step), p, channel)
  {
    var d :| 0 <= d < |s.deliveries| && s.deliveries[d] == Delivery(p, Sent(channel));
    assert Apply(s, step).deliveries[d] == s.deliveries[d];
  }

  lemma SendOnSends(s: State, d: nat)
    requires Enabled(s, SendOn(d))
    ensures WasSent(Apply(s, SendOn(d)), s.deliveries[d].payload, s.deliveries[d].progress.channel)
  {
    var x := s.deliveries[d];
    assert Apply(s, SendOn(d)).deliveries[d] == Delivery(x.payload, Sent(x.progress.channel));
  }

  lemma InChannelHolds(s: State, step: Step, d: nat)
    requires TableInv(s) && Unshared(s) && Enabled(s, step)
    requires d < |Apply(s, step).deliveries| && Apply(s, step).deliveries[d].progress.Sent?
    requires step != SendOn(d) ==> d < |s.deliveries| && s.deliveries[d].progress.Sent? && InChannelOrReturned(s, d)
    requires step == SendOn(d) ==> ClaimOk(s, s.deliveries[d])
    ensures InChannelOrReturned(Apply(s, step), d)
  {
    if step.SendOn? && step.d != d {
      var channel := s.deliveries[d].progress.channel;
      assert !(On(s.deliveries[step.d], channel) && On(s.deliveries[d], channel));
    }
  }

  lemma BufferOkHolds(s: State, step: Step, i: nat)
    requires Enabled(s, step) && i < |Apply(s, step).buffers| && (i < |s.buffers| ==> BufferOk(s, i))
    ensures BufferOk(Apply(s, step), i)
  {
    hide WasSent;
    if i < |s.buffers| && s.buffers[i] != [] {
      WasSentStays(s, step, s.buffers[i][0], i);
    }
    if step.SendOn? {
      SendOnSends(s, step.d);
    }
  }

  lemma ResultOkHolds(s: State, step: Step, i: nat)
    requires TableInv(s) && Enabled(s, step) && i < |Apply(s, step).challenges|
    requires i < |s.challenges| ==> BufferOk(s, i) && ResultOk(s, i)
    ensures ResultOk(Apply(s, step), i)
  {
    hide WasSent;
    if i < |s.challenges| && s.buffers[i] != [] {
      WasSentStays(s, step, s.buffers[i][0], i);
    }
    if i < |s.challenges| && HasResult(s.challenges[i]) && s.challenges[i].phase.result.Ok? {
      WasSentStays(s, step, s.challenges[i].phase.result.value, i);
    }
  }

  lemma SentBefore(s: State, step: Step, d: nat)
    requires Enabled(s, step) && d < |Apply(s, step).deliveries| && Apply(s, step).deliveries[d].progress.Sent?
    ensures d < |s.deliveries| && (step != SendOn(d) ==> s.deliveries[d].progress.Sent?)
  {
  }

  lemma ChannelInvHolds(s: State, step: Step)
    requires Inv(s) && Enabled(s, step)
    ensures ChannelInv(Apply(s, step))
  {
    hide Apply, Enabled, InChannelOrReturned, WasSent, Unshared, ClaimOk;
    var t := Apply(s, step);
    forall d | 0 <= d < |t.deliveries| && t.deliveries[d].progress.Sent?
      ensures InChannelOrReturned(t, d)
    {
      SentBefore(s, step, d);
      if step == SendOn(d) {
        assert ClaimOk(s, s.deliveries[d]);
      } else {
        assert InChannelOrReturned(s, d);
      }
      InChannelHolds(s, step, d);
    }
    forall i | 0 <= i < |t.buffers|
      ensures BufferOk(t, i)
    {
      BufferOkHolds(s, step, i);
    }
    forall i | 0 <= i < |t.challenges|
      ensures ResultOk(t, i)
    {
      ResultOkHolds(s, step, i);
    }
  }

  lemma {:induction false} InvAlways(s: State, steps: seq<Step>, t: State)
    requires Inv(s) && Runs(s, steps, t)
    ensures Inv(t)
    decreases |steps|
  {
    if steps != [] {
      TableInvHolds(s, steps[0]);
      ClaimInvHolds(s, steps[0]);
      ChannelInvHolds(s, steps[0]);
      InvAlways(Apply(s, steps[0]), steps[1..], t);
    }
  }

  // ---------------------------------------------------------------- safety over whole runs

  /** In every interleaving the send of a matched delivery finds its channel empty: it never blocks. */
  lemma SendNeverBlocks(steps: seq<Step>, t: State, d: nat)
    requires Runs(INIT, steps, t) && d < |t.deliveries| && t.deliveries[d].progress.Holding?
    ensures Enabled(t, SendOn(d))
  {
    InvAlways(INIT, steps, t);
    var i := t.deliveries[d].progress.channel;
    if t.buffers[i] != [] {
      assert BufferOk(t, i);
      var e :| 0 <= e < |t.deliveries| && t.deliveries[e] == Delivery(t.buffers[i][0], Sent(i));
      assert On(t.deliveries[d], i) && On(t.deliveries[e], i);
    }
  }

  /** In every interleaving no channel is claimed by two SETs, so each waiter is sent to at most
      once, and a SET is claimed by one waiter of its own state or passed downstream. */
  lemma OneSetPerWaiter(steps: seq<Step>, t: State, d: nat, e: nat, channel: nat)
    requires Runs(INIT, steps, t) && d < |t.deliveries| && e < |t.deliveries|
    requires On(t.deliveries[d], channel) && On(t.deliveries[e], channel)
    ensures d == e && channel < |t.challenges|
    ensures ExtractState(t.deliveries[d].payload) == Some(t.challenges[channel].state)
  {
    InvAlways(INIT, steps, t);
  }

  /** In every interleaving a successful Challenge returns the one SET sent to it, and that SET
      carries the state it registered. */
  lemma SuccessCarriesOwnState(steps: seq<Step>, t: State, i: nat)
    requires Runs(INIT, steps, t) && i < |t.challenges|
    requires HasResult(t.challenges[i]) && t.challenges[i].phase.result.Ok?
    ensures WasSent(t, t.challenges[i].phase.result.value, i)
    ensures ExtractState(t.challenges[i].phase.result.value) == Some(t.challenges[i].state)
  {
    InvAlways(INIT, steps, t);
    assert ResultOk(t, i);
  }

  /** In every interleaving a SET sent to a waiter is returned by its Challenge or still sits in the
      channel; it is swallowed exactly when the Challenge has given up instead of receiving. */
  lemma SentSetIsReturnedOrSwallowed(steps: seq<Step>, t: State, d: nat)
    requires Runs(INIT, steps, t) && d < |t.deliveries| && t.deliveries[d].progress.Sent?
    ensures var i := t.deliveries[d].progress.channel;
            && i < |t.challenges| && i < |t.buffers|
            && (HasResult(t.challenges[i]) ==>
                  (t.challenges[i].phase.result == Ok(t.deliveries[d].payload) <==> t.buffers[i] == []))
            && (!HasResult(t.challenges[i]) ==> t.buffers[i] == [t.deliveries[d].payload])
  {
    InvAlways(INIT, steps, t);
    BufferedHasNoResult(INIT, steps, t);
  }

  /** A channel that still holds its SET belongs to a Challenge that has not received. */
  ghost predicate UnreadInv(s: State) {
    |s.buffers| == |s.challenges| &&
    forall i | 0 <= i < |s.challenges| ::
      s.buffers[i] != [] && HasResult(s.challenges[i]) ==> s.challenges[i].phase.result.Err?
  }

  lemma UnreadInvHolds(s: State, step: Step)
    requires Inv(s) && UnreadInv(s) && Enabled(s, step)
    ensures UnreadInv(Apply(s, step))
  {
    if step.SendOn? {
      var i := s.deliveries[step.d].progress.channel;
      if HasResult(s.challenges[i]) && s.challenges[i].phase.result.Ok? {
        assert ResultOk(s, i);
        var p := s.challenges[i].phase.result.value;
        var e :| 0 <= e < |s.deliveries| && s.deliveries[e] == Delivery(p, Sent(i));
        assert On(s.deliveries[step.d], i) && On(s.deliveries[e], i);
      }
    }
  }

  lemma {:induction false} BufferedHasNoResult(s: State, steps: seq<Step>, t: State)
    requires Inv(s) && UnreadInv(s) && Runs(s, steps, t)
    ensures UnreadInv(t)
    decreases |steps|
  {
    if steps != [] {
      UnreadInvHolds(s, steps[0]);
      TableInvHolds(s, steps[0]);
      ClaimInvHolds(s, steps[0]);
      ChannelInvHolds(s, steps[0]);
      BufferedHasNoResult(Apply(s, steps[0]), steps[1..], t);
    }
  }

  // ---------------------------------------------------------------- keeping the slot

  ghost predicate HasSlot(s: State, i: nat)
    requires i < |s.challenges|
  {
    s.challenges[i].state in s.pending && s.pending[s.challenges[i].state] == i
  }

  ghost predicate Matched(s: State, i: nat) {
    exists d | 0 <= d < |s.deliveries| :: On(s.deliveries[d], i)
  }

  ghost predicate InFlight(s: State, state: string) {
    exists i | 0 <= i < |s.challenges| :: s.challenges[i].state == state && !s.challenges[i].phase.Returned?
  }

  /** The challenge can still be answered, has been, or is over. */
  ghost predicate Kept(s: State, i: nat) {
    i < |s.challenges| && (s.challenges[i].phase.Returned? || HasSlot(s, i) || Matched(s, i))
  }

  /** While a challenge is unmatched nobody else with its state is about. */
  ghost predicate Alone(s: State, i: nat) {
    && i < |s.challenges|
    && Kept(s, i)
    && (!s.challenges[i].phase.Returned? && !Matched(s, i) ==>
          forall k | 0 <= k < |s.challenges| && k != i && s.challenges[k].state == s.challenges[i].state ::
            s.challenges[k].phase.Returned?)
  }

  lemma MatchedStays(s: State, step: Step, i: nat)
    requires Enabled(s, step) && Matched(s, i)
    ensures Matched(Apply(s, step), i)
  {
    var d :| 0 <= d < |s.deliveries| && On(s.deliveries[d], i);
    assert On(Apply(s, step).deliveries[d], i);
  }

  lemma MatchIsSeen(s: State, d: nat, i: nat)
    requires Enabled(s, Lookup(d)) && Match(s.pending, s.deliveries[d].payload) == Some(i)
    ensures Matched(Apply(s, Lookup(d)), i)
  {
    assert On(Apply(s, Lookup(d)).deliveries[d], i);
  }

  lemma AloneHolds(s: State, step: Step, i: nat)
    requires Inv(s) && Enabled(s, step) && Alone(s, i)
    ensures Alone(Apply(s, step), i)
  {
    hide Matched, ClaimInv, ChannelInv;
    if Matched(s, i) {
      MatchedStays(s, step, i);
    } else if step.Lookup? && Match(s.pending, s.deliveries[step.d].payload) == Some(i) {
      MatchIsSeen(s, step.d, i);
    }
  }

  lemma {:induction false} AloneAlways(s: State, steps: seq<Step>, t: State, i: nat)
    requires Inv(s) && Alone(s, i) && Runs(s, steps, t)
    ensures Alone(t, i)
    decreases |steps|
  {
    if steps != [] {
      AloneHolds(s, steps[0], i);
      TableInvHolds(s, steps[0]);
      ClaimInvHolds(s, steps[0]);
      ChannelInvHolds(s, steps[0]);
      AloneAlways(Apply(s, steps[0]), steps[1..], t, i);
    }
  }

  lemma Prepend(s: State, step: Step, rest: seq<Step>, t: State)
    requires Enabled(s, step) && Runs(Apply(s, step), rest, t)
    ensures Runs(s, [step] + rest, t)
  {
    assert ([step] + rest)[1..] == rest;
  }

  ghost predicate SafeFromNowOn(s: State, i: nat) {
    forall steps: seq<Step>, t | Runs(s, steps, t) :: Kept(t, i)
  }

  /** A new challenge is sure of its slot, until it is matched or returns, exactly when no earlier
      Challenge with its state is still to return. `register` checks less: it looks for the state in
      the table, from where a match has already removed it. */
  lemma SlotIsSafeIff(s: State, state: string)
    requires Inv(s) && Enabled(s, Begin(state))
    ensures SafeFromNowOn(Apply(s, Begin(state)), |s.challenges|) <==> !InFlight(s, state)
  {
    var u := Apply(s, Begin(state));
    var i := |s.challenges|;
    TableInvHolds(s, Begin(state));
    ClaimInvHolds(s, Begin(state));
    ChannelInvHolds(s, Begin(state));
    if InFlight(s, state) {
      var steps, t := Eviction(s, state);
      assert Runs(u, steps, t) && !Kept(t, i);
      assert !SafeFromNowOn(u, i);
    } else {
      forall k | 0 <= k < |u.challenges| && k != i && u.challenges[k].state == state
        ensures u.challenges[k].phase.Returned?
      {
        assert s.challenges[k] == u.challenges[k];
      }
      assert HasSlot(u, i);
      forall steps: seq<Step>, t | Runs(u, steps, t)
        ensures Alone(t, i)
      {
        AloneAlways(u, steps, t, i);
      }
    }
  }

  /** The earlier Challenge returns, and its unconditional unregister takes the newcomer's slot. */
  lemma Eviction(s: State, state: string) returns (steps: seq<Step>, t: State)
    requires Inv(s) && Enabled(s, Begin(state)) && InFlight(s, state)
    ensures Runs(Apply(s, Begin(state)), steps, t)
    ensures |s.challenges| < |t.challenges| && t.challenges[|s.challenges|] == Challenge(state, Posting)
    ensures Evicted(t, |s.challenges|) && !Kept(t, |s.challenges|)
  {
    var k :| 0 <= k < |s.challenges| && s.challenges[k].state == state && !s.challenges[k].phase.Returned?;
    var u := Apply(s, Begin(state));
    var v := u;
    var head: seq<Step> := [];
    match u.challenges[k].phase {
      case Posting =>
        v, head := Apply(u, PostFailed(k)), [PostFailed(k)];
      case Waiting =>
        v, head := Apply(u, GiveUp(k, TimedOut)), [GiveUp(k, TimedOut)];
      case Returning(_) =>
    }
    t := Apply(v, Unregister(k));
    Prepend(v, Unregister(k), [], t);
    steps := head + ([Unregister(k)] + []);
    if head != [] {
      Prepend(u, head[0], [Unregister(k)] + [], t);
    } else {
      assert steps == [Unregister(k)] + [];
    }
    forall d | 0 <= d < |t.deliveries|
      ensures !On(t.deliveries[d], |s.challenges|)
    {
      assert t.deliveries[d] == s.deliveries[d];
    }
  }

  ghost predicate Evicted(s: State, i: nat) {
    i < |s.challenges| && !HasSlot(s, i) && !Matched(s, i) &&
    !(HasResult(s.challenges[i]) && s.challenges[i].phase.result.Ok?)
  }

  /** A challenge without its slot can only fail: no later SET reaches it. */
  lemma {:induction false} EvictedNeverSucceeds(s: State, steps: seq<Step>, t: State, i: nat)
    requires Inv(s) && Evicted(s, i) && Runs(s, steps, t)
    ensures Evicted(t, i)
    decreases |steps|
  {
    if steps != [] {
      var u := Apply(s, steps[0]);
      TableInvHolds(s, steps[0]);
      ClaimInvHolds(s, steps[0]);
      ChannelInvHolds(s, steps[0]);
      assert Evicted(u, i) by {
        forall d | 0 <= d < |u.deliveries|
          ensures !On(u.deliveries[d], i)
        {
          assert d < |s.deliveries| ==> !On(s.deliveries[d], i);
        }
        if HasResult(u.challenges[i]) && u.challenges[i].phase.result.Ok? {
          assert ResultOk(u, i);
        }
      }
      EvictedNeverSucceeds(u, steps[1..], t, i);
    }
  }

  /** The situation arises: after `intercept` removes the slot, and before the first Challenge has
      returned, a second one registers the same state. */
  lemma ReuseBeforeReturnIsPossible(state: string)
    requires state != ""
    ensures exists steps: seq<Step>, s :: Runs(INIT, steps, s) && Enabled(s, Begin(state)) && InFlight(s, state)
  {
    var p := Claims(0, map[EVENT_TYPE_VERIFICATION := Event(state)]);
    var s1 := Apply(INIT, Begin(state));
    var s2 := Apply(s1, Arrive(p));
    var s3 := Apply(s2, Lookup(0));
    Prepend(s2, Lookup(0), [], s3);
    Prepend(s1, Arrive(p), [Lookup(0)] + [], s3);
    Prepend(INIT, Begin(state), [Arrive(p)] + ([Lookup(0)] + []), s3);
    assert s3.challenges[0] == Challenge(state, Posting);
  }
}
