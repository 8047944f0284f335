/** The other things a poll carries, over whole runs of the protocol: error reports and tokens. */
module PollReports {
  import opened Collections
  import opened Wrappers
  import opened PollWire
  import opened Process
  import opened PollDrain
  import opened PollProtocol

  // ---------------------------------------------------------------- error reports

  /** The k-th request served since the stream was cleared is the last to report on the jti. */
  ghost predicate IsLastReport(served: seq<Request>, jti: string, k: nat) {
    && k < |served| && jti in served[k].setErrs
    && forall l | k < l < |served| :: jti !in served[l].setErrs
  }

  lemma {:induction false} LastReportExists(served: seq<Request>, jti: string, k: nat) returns (last: nat)
    requires k < |served| && jti in served[k].setErrs
    ensures IsLastReport(served, jti, last)
    decreases |served| - k
  {
    if l: nat :| k < l < |served| && jti in served[l].setErrs {
      last := LastReportExists(served, jti, l);
    } else {
      last := k;
    }
  }

  /** The transmitter shows for each jti the last error reported on it, and shows nothing else. */
  ghost predicate Observed(s: State) {
    && (forall jti | jti in s.tx.observed :: exists k: nat :: IsLastReport(s.h.served, jti, k))
    && forall jti, k: nat | IsLastReport(s.h.served, jti, k) ::
         jti in s.tx.observed && s.tx.observed[jti] == s.h.served[k].setErrs[jti]
  }

  /** The request at this position has been served, and reports that error. */
  ghost predicate Reports(s: State, i: nat, jti: string) {
    && i in s.h.everServed && i < |s.sent| && jti in s.sent[i].setErrs && jti in s.h.failures
    && s.sent[i].setErrs[jti] == s.h.failures[jti]
  }

  ghost predicate Carried(s: State, jti: string) {
    jti in s.carry.setErrs && jti in s.h.failures && s.carry.setErrs[jti] == s.h.failures[jti]
  }

  /** What the Poller found wrong is in a request that was served, or is what it owes. */
  ghost predicate Reported(s: State) {
    && (s.current.Some? ==> s.current.value < |s.sent| && s.sent[s.current.value].setErrs == s.carry.setErrs)
    && (s.reply.Some? ==> s.current.Some? && s.current.value in s.h.everServed)
    && (forall i | i in s.h.everServed - s.h.forgotten :: i < |s.sent| && s.sent[i] in s.h.served)
    && (forall jti | jti in s.h.failures :: Carried(s, jti) || exists i: nat :: Reports(s, i, jti))
  }

  lemma ServeObserves(s: State, i: nat, heard: bool)
    requires Observed(s) && i < |s.sent|
    ensures Observed(Serve(s, i, heard))
  {
    var t := Serve(s, i, heard);
    var req, n := s.sent[i], |s.h.served|;
    hide SetsOf, BatchSize, EntryJtis;
    forall jti, k: nat
      ensures IsLastReport(t.h.served, jti, k) <==>
              if jti in req.setErrs then k == n else IsLastReport(s.h.served, jti, k)
    {
      assert t.h.served[n] == req;
      assert forall l | 0 <= l < n :: t.h.served[l] == s.h.served[l];
    }
    forall jti | jti in t.tx.observed
      ensures exists k: nat :: IsLastReport(t.h.served, jti, k)
    {
      if jti in req.setErrs {
        assert IsLastReport(t.h.served, jti, n);
      } else {
        var k: nat :| IsLastReport(s.h.served, jti, k);
        assert IsLastReport(t.h.served, jti, k);
      }
    }
  }

  lemma ObservedHolds(s: State, step: Step)
    requires Observed(s) && Enabled(s, step)
    ensures Observed(Apply(s, step))
  {
    match step {
      case ServePoll(i, heard) => ServeObserves(s, i, heard);
      case _ =>
    }
  }

  lemma ReportsStay(s: State, step: Step, i: nat, jti: string)
    requires Enabled(s, step) && Reports(s, i, jti) && (step.Receive? ==> jti !in Outcome(step.jobs).setErrs)
    ensures Reports(Apply(s, step), i, jti)
  {
    hide Outcome, Finishers, SinkCalls, EntryJtis, AfterPoll, PollReply, BatchSize;
  }

  /** What is reported on after a step was reported on before, or is owed, or was reported by it. */
  lemma ReportedStays(s: State, step: Step, jti: string)
    requires Reported(s) && Enabled(s, step) && jti in Apply(s, step).h.failures
    ensures Carried(Apply(s, step), jti) || exists i: nat :: Reports(Apply(s, step), i, jti)
  {
    if step.Receive? && jti in Outcome(step.jobs).setErrs {
      assert Carried(Apply(s, step), jti);
    } else if i: nat :| Reports(s, i, jti) {
      ReportsStay(s, step, i, jti);
    } else {
      assert Carried(s, jti);
      if step.Receive? {
        assert Reports(s, s.current.value, jti);
      }
      assert Carried(Apply(s, step), jti);
    }
  }

  lemma ReportedHolds(s: State, step: Step)
    requires Reported(s) && Enabled(s, step)
    ensures Reported(Apply(s, step))
  {
    var t := Apply(s, step);
    forall jti | jti in t.h.failures
      ensures Carried(t, jti) || exists i: nat :: Reports(t, i, jti)
    {
      ReportedStays(s, step, jti);
    }
    hide Carried, Reports, Outcome, Finishers, SinkCalls, EntryJtis, AfterPoll, PollReply, BatchSize;
    forall i | i in t.h.everServed - t.h.forgotten
      ensures i < |t.sent| && t.sent[i] in t.h.served
    {
    }
  }

  lemma {:induction false} ReportsAlways(s: State, steps: seq<Step>, t: State)
    requires Observed(s) && Reported(s) && Runs(s, steps, t)
    ensures Observed(t) && Reported(t)
    decreases |steps|
  {
    hide Observed, Reported, Apply, Enabled;
    if steps != [] {
      ObservedHolds(s, steps[0]);
      ReportedHolds(s, steps[0]);
      ReportsAlways(Apply(s, steps[0]), steps[1..], t);
    }
  }

  /** In every run: since the stream was last cleared, the transmitter shows for each jti exactly the
      last error in a request it has served, and no report of a served request is lost. */
  lemma NoServedReportIsLost(maxEvents: int, steps: seq<Step>, t: State)
    requires maxEvents > 0 && Runs(Init(maxEvents), steps, t)
    ensures forall jti, k: nat | IsLastReport(t.h.served, jti, k) ::
              jti in t.tx.observed && t.tx.observed[jti] == t.h.served[k].setErrs[jti]
    ensures forall jti :: jti in t.tx.observed <==> exists k | 0 <= k < |t.h.served| :: jti in t.h.served[k].setErrs
  {
    ReportsAlways(Init(maxEvents), steps, t);
    forall jti
      ensures jti in t.tx.observed <==> exists k | 0 <= k < |t.h.served| :: jti in t.h.served[k].setErrs
    {
      if k :| 0 <= k < |t.h.served| && jti in t.h.served[k].setErrs {
        var last := LastReportExists(t.h.served, jti, k);
      }
    }
  }

  /** In every run: an error the Poller met is still owed, or the transmitter shows an error for that
      jti, or the stream was cleared after the report had been served. Losing replies, repeating and
      delaying requests loses no report. */
  lemma FailuresReachTheTransmitter(maxEvents: int, steps: seq<Step>, t: State, jti: string)
    requires maxEvents > 0 && Runs(Init(maxEvents), steps, t) && jti in t.h.failures
    ensures
      || (jti in t.carry.setErrs && t.carry.setErrs[jti] == t.h.failures[jti])
      || jti in t.tx.observed
      || exists i: nat :: i in t.h.forgotten && Reports(t, i, jti)
  {
    ReportsAlways(Init(maxEvents), steps, t);
    if !Carried(t, jti) {
      var i: nat :| Reports(t, i, jti);
      if i !in t.h.forgotten {
        var k :| 0 <= k < |t.h.served| && t.h.served[k] == t.sent[i];
        var last := LastReportExists(t.h.served, jti, k);
      }
    }
  }

  // ---------------------------------------------------------------- tokens

  /** An outstanding SET has the token it was handed out with. */
  ghost predicate OwnTokens(s: State) {
    forall jti | jti in s.tx.outstanding :: Entry(jti, s.tx.outstanding[jti]) in s.h.handed
  }

  lemma OwnTokensHold(s: State, step: Step)
    requires OwnTokens(s) && Enabled(s, step)
    ensures OwnTokens(Apply(s, step))
  {
    match step {
      case ServePoll(i, heard) =>
        ServeKeepsTokens(s, i, heard);
      case _ =>
    }
  }

  lemma ServeKeepsTokens(s: State, i: nat, heard: bool)
    requires OwnTokens(s) && i < |s.sent|
    ensures OwnTokens(Serve(s, i, heard))
  {
    var t := Serve(s, i, heard);
    var batch := s.tx.pending[..BatchSize(s.tx.pending, s.sent[i].maxEvents)];
    hide SetsOf, BatchSize, EntryJtis;
    forall jti | jti in t.tx.outstanding
      ensures Entry(jti, t.tx.outstanding[jti]) in t.h.handed
    {
      if jti in SetsOf(batch) {
        TokenInBatch(batch, jti);
      }
    }
  }

  lemma {:induction false} TokenInBatch(batch: seq<Entry>, jti: string)
    requires jti in SetsOf(batch)
    ensures Entry(jti, SetsOf(batch)[jti]) in batch
    decreases |batch|
  {
    var init, last := batch[..|batch| - 1], batch[|batch| - 1];
    if last.jti != jti {
      TokenInBatch(init, jti);
    }
  }

  lemma {:induction false} OwnTokensAlways(s: State, steps: seq<Step>, t: State)
    requires OwnTokens(s) && Runs(s, steps, t)
    ensures OwnTokens(t)
    decreases |steps|
  {
    hide OwnTokens, Apply, Enabled;
    if steps != [] {
      OwnTokensHold(s, steps[0]);
      OwnTokensAlways(Apply(s, steps[0]), steps[1..], t);
    }
  }

  /** In every run: an outstanding SET stands there with the very token it was enqueued with. */
  lemma TokensAreTheEnqueuedOnes(maxEvents: int, steps: seq<Step>, t: State, e: Entry)
    requires maxEvents > 0 && Runs(Init(maxEvents), steps, t)
    requires e in t.h.enqueued && e.jti in t.tx.outstanding
    ensures t.tx.outstanding[e.jti] == e.jws
  {
    OwnTokensAlways(Init(maxEvents), steps, t);
    ConservationAndFifo(maxEvents, steps, t);
    var o := Entry(e.jti, t.tx.outstanding[e.jti]);
    assert o in t.h.enqueued;
    var i :| 0 <= i < |t.h.enqueued| && t.h.enqueued[i] == e;
    var k :| 0 <= k < |t.h.enqueued| && t.h.enqueued[k] == o;
  }
}
