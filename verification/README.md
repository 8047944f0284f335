# Delivery machinery of the Shared Signals Framework library, modelled in Dafny

The model covers the parts of the library that deliver Security Event Tokens (SETs) and keep the state
around them:

- **Poll delivery** (section 2.4 of RFC 8936): `receiver/poller.go` against the transmitter half in
  `internal/interop/interop.go`. `Prelude.dfy`, `Process.dfy` and `Poller.dfy` hold the receiver's parts,
  `Transmitter.dfy` the transmitter's maps, and `PollProtocol.dfy` the two-party protocol as a state
  machine in which every section under a mutex is one step and the network loses, delays and repeats;
  `PollReports.dfy` follows error reports and tokens through it.
- **Verification handshake**: `receiver/verification.go`, in `Challenger.dfy`, with the gap between the
  lookup under the lock and the send outside it as separate steps.
- **Push delivery** (section 2 of RFC 8935): the driver, the handler, and both over a lossy network, in
  `Push.dfy`.
- **The in-memory store**: `memstore/memstore.go`, by value in `Memstore.dfy`, on the heap in
  `MemoryStore.dfy`, and used by arbitrary callers over time in `StoreSession.dfy`. Subject keys are in
  `SubjectKeys.dfy`, on top of a JSON reader in `Json.dfy` and of the texts it accepts, in `JsonText.dfy` and
  `JsonNumbers.dfy`.
- **Problem documents** (section 3.2 of RFC 7807): `errors.go`, from text to text, in `ProblemDetails.dfy`,
  which uses `JsonLocality.dfy`, and measured against the JSON reader in `ProblemObjects.dfy`.
- **The metadata cache** (section 5.2 of RFC 9111): `client/discovery.go`, in `ConfigCache.dfy`.
- **The delivery codec and registry**: `stream.go` and `delivery_registry.go`, in `DeliveryCodec.dfy`.

`dafny verify dfyconfig.toml` checks the project.

## How the surroundings are modelled

The network, the clock, random numbers, the verifier and the sink are inputs: a script of what each attempt
meets, or the free choice of a step. The signature scheme appears only as "verifying what was signed gives
the payload". Durations are int64 with wrap-around written out; jitter is any real factor between 0.8 and
1.2, with an arbitrary result where the conversion back overflows. Texts are sequences of characters.
Floating point in subjects is a pair of functions, of which the proofs use only that a written number is a
JSON number that reads back as itself.

## Where the code and its documentation part

- The poll transmitter never hands out an outstanding SET again, although `receiver/poller.go:571` counts on
  it: only a reply already under way can still bring it to the sink, so delivery is at most once
  (`PollProtocol.OutstandingReachesSinkIff`, `NeverReplayed`, `TransientFailureIsFinal`, `LostReplyLosesTheSet`).
- An enqueue that overlaps a delete leaves its SET behind for the next stream of that name
  (`PollProtocol.DeleteLeavesResidueIff`, `EnqueueOutlivesItsStream`).
- A challenge loses its slot when its state is reused before the earlier Challenge has returned
  (`ChallengeProtocol.SlotIsSafeIff`).
- A context that ends during the last POST is reported to the dead-letter callback
  (`PushDelivery.ContextIsDeadLetteredIff`, `ContextErrorIsDeadLettered`).
- The push backoff has no overflow guard (`PushDelivery.BackoffIsExponentialIff`, `BackoffTurnsNegative`).
- A create without an id does not check that the minted id is free (`StoreModel.OverwrittenIff`).
- The bytes of an unknown delivery are shared between the store and its callers
  (`StoreSession.UnknownBytesAreShared`).
- Extension keys that need JSON escaping are written back unescaped, which changes the members of the
  document or leaves it without an encoding (`ProblemText.EncodeAfterDecode`, `DecodeAfterEncode`,
  `ExtensionsSurviveIff`, `EscapedKeyIsLost`).
- The product of max-age and one second may wrap, which shortens a cache lifetime but never lengthens it
  (`ConfigCache.FreshnessIsMinimumIff`, `HugeMaxAgeWraps`).
- An empty field of a known delivery is filled from the factory's seed on decoding
  (`DeliveryCodec.KnownRoundTripIff`, `SeedFillsEmptiedField`).

## Model

| member | source | states |
|---|---|---|
| `Backoff.Backoff.Configure` | receiver/poller.go:160-182 | an option with bounds that are not 0 < initial <= max is ignored; any other is in force and the backoff restarts |
| `Backoff.Backoff.ConfigureAll` | receiver/poller.go:222-247 | after any sequence of options the last acceptable bounds are in force and 0 < initial <= current <= max |
| `Backoff.Backoff.Next` | receiver/poller.go:608-631 | with wrapping int64 arithmetic, the k-th call yields min(initial * 2^k, max), jittered if so configured, and stores the next term |
| `Backoff.Backoff.Reset` | receiver/poller.go:635-637 | the schedule starts over |
| `Backoff.GuardCatchesExactlyTheWraps` | receiver/poller.go:614-617 | the guard `next < current` fires for exactly the doublings that overflow int64 |
| `Backoff.Jitter` | receiver/poller.go:618-630 | a jittered sleep is never negative, and is within a fifth of its input as long as 1.2 times that fits an int64 |
| `Process.DeliverOne` | receiver/poller.go:554-575 | acked exactly when the sink is done with the SET (nil or permanent); an error code exactly when it was not accepted |
| `Process.ProcessSerially` | receiver/poller.go:476-495 | the serial loop computes the outcome of the list it was given |
| `Process.OutcomeIsExact` | receiver/poller.go:449-542 | which jtis are acked and which are reported, with which code and description; the ack list has no duplicates |
| `Process.AckAndErrsPartition` | receiver/poller.go:449-542 | acks and reports together cover the batch; their overlap is the permanent failures |
| `Process.AcksKeepTheOrder` | receiver/poller.go:476-495 | the acks stand in the order in which the entries were processed |
| `Process.OutcomeOfReordered` | receiver/poller.go:471-474 | listing the reply map in another order permutes the ack list and keeps the error map |
| `WorkerPool.ParallelRefinesSerial` | receiver/poller.go:502-541 | every complete schedule of the workers delivers each entry once and gives the serial error map and a duplicate-free permutation of the serial ack list |
| `WorkerPool.PoolMakesProgress` | receiver/poller.go:502-541 | the unbuffered channel never deadlocks the pool: some move is possible until it is done, and every move counts down |
| `WorkerPool.ScheduleIsBounded` | receiver/poller.go:502-541 | any schedule has at most three moves per entry |
| `WorkerPool.ParallelismIsKept` | receiver/poller.go:502-541 | the pool has as many workers as the parallelism or the batch allows, whichever is less, at all times |
| `PollDrain.SetsOf` | internal/interop/interop.go:295-301 | the sets object holds exactly the jtis of the batch |
| `PollDrain.PollMeans` | internal/interop/interop.go:247-311 | fact by fact: how much of the queue the cap lets out (64 without one, nothing at zero or less), the token of each jti in the reply, what is outstanding, and that every reported error is observed and every other one kept |
| `MemstoreTransmitter.MemstoreTransmitter.EnqueueForPoll` | internal/interop/interop.go:122-131 | the SET goes to the store's queue and to the end of the stream's pending list, or neither when the stream is unknown; no other stream changes |
| `MemstoreTransmitter.MemstoreTransmitter.DeleteConfig` | internal/interop/interop.go:194-201 | all three maps and the store forget the stream; no other stream changes |
| `MemstoreTransmitter.MemstoreTransmitter.OutstandingCount` | internal/interop/interop.go:161-165 | the number of outstanding SETs of the stream |
| `MemstoreTransmitter.MemstoreTransmitter.PollEvents` | internal/interop/interop.go:247-311 | an unknown stream is an error and changes nothing; otherwise queue, reply, outstanding SETs and observed errors are those of one poll, spelled out and as the step of the protocol model, and no other stream changes |
| `MemstoreTransmitter.MemstoreTransmitter.ApplyAcks` | internal/interop/interop.go:255-260 | the loop removes exactly the acked jtis from the outstanding map |
| `MemstoreTransmitter.MemstoreTransmitter.RecordErrs` | internal/interop/interop.go:262-275 | the loop adds every reported error, in whatever order the map is ranged over |
| `MemstoreTransmitter.MemstoreTransmitter.TakeBatch` | internal/interop/interop.go:277-309 | the first min(cap, pending) entries become the reply and join the outstanding map; the rest stays queued in order |
| `PollProtocol.InvAlways` | internal/interop/interop.go:247-311 | the protocol invariant holds after every interleaving of the two parties, with requests and replies lost, served late or served twice |
| `PollProtocol.AckSafety` | receiver/poller.go:306-374 | in every run an ack clears only what the sink is done with, and what the sink is done with is cleared, gone with its stream, or still in nextAck |
| `PollProtocol.ConservationAndFifo` | internal/interop/interop.go:122-131 | in every run what was enqueued since the last delete is the batches handed out, in order, followed by pending; each SET handed out is either acked or outstanding |
| `PollProtocol.SinkNeverSeesAJtiTwice` | receiver/poller.go:554-575 | in every run the sink is called at most once per jti |
| `PollReports.NoServedReportIsLost` | internal/interop/interop.go:262-275 | in every run the transmitter observes for each jti the last error in a request served since the stream was cleared, and for no other jti any |
| `PollReports.FailuresReachTheTransmitter` | receiver/poller.go:343-347 | in every run an error the Poller met is still owed, or observed for its jti, or was served before the stream was cleared |
| `PollReports.TokensAreTheEnqueuedOnes` | internal/interop/interop.go:295-301 | in every run an outstanding SET stands there with the token it was enqueued with |
| `PollProtocol.NeverReplayed` | internal/interop/interop.go:288-302 | an outstanding SET that is on no reply under way is never handed out again while the stream lives |
| `PollProtocol.OutstandingReachesSinkIff` | receiver/poller.go:571-574 | an outstanding SET the sink has not seen can still reach it while the stream lives exactly when it is in a reply already under way: the replay counted on never comes |
| `PollProtocol.TransientFailureIsFinal` | receiver/poller.go:563-574 | after a transient failure the SET stays outstanding and the sink does not see it again |
| `PollProtocol.LostReplyLosesTheSet` | internal/interop/interop.go:288-302 | a concrete run in which a reply is lost after the server acted; in every continuation the SET never reaches the sink |
| `PollProtocol.ResidueIff` | internal/interop/interop.go:122-131 | while the store does not know a stream its queue can hold entries, now or later, exactly when it holds some or an enqueue has passed the store check |
| `PollProtocol.DeleteLeavesResidueIff` | internal/interop/interop.go:194-201 | after an uninterrupted DeleteConfig the queue of the dead stream can fill again exactly when an enqueue was between its two sections |
| `PollProtocol.EnqueueOutlivesItsStream` | internal/interop/interop.go:122-131 | a concrete run: an enqueue lands after the delete, and the first poll of the next stream of that name is answered with the old SET |
| `PollProtocol.CleanPollIsARun` | receiver/poller.go:380-415 | one undisturbed poll is four steps of the protocol |
| `PollProtocol.CleanPollEffect` | internal/interop/interop.go:247-311 | its effect on queue, outstanding map and owed acks, and moreAvailable is true exactly when something stays queued |
| `PollProtocol.DrainBound` | receiver/poller.go:144-150 | k undisturbed polls with a positive maxEvents take exactly min(k * maxEvents, n) entries off a queue of n |
| `PollProtocol.DrainAccount` | receiver/poller.go:349-372 | over such polls nothing is lost or invented: what is outstanding, queued or owed is what it was, less what was acked |
| `PollProtocol.DrainSettles` | receiver/poller.go:349-372 | one more poll after the queue is empty leaves outstanding exactly what nobody acked, leftovers of lost replies included |
| `PollProtocol.CleanRunExists` | receiver/poller.go:306-374 | from every ready state a clean run of any number of polls is possible, whatever verdicts the SETs meet, and it takes off the queue just the SETs it brings |
| `PollProtocol.DrainFromEveryReadyState` | receiver/poller.go:306-374 | from every ready state, for all verdicts: polling can empty the queue and the owed acks, and outstanding is then what was outstanding or queued, less what was owed as acked and what the sink is done with |
| `Poller.Poller.WithMaxEvents` | receiver/poller.go:144-150 | a non-positive cap is ignored, so the cap stays positive |
| `Poller.Poller.PollOnce` | receiver/poller.go:380-415 | success exactly on a status in the 200s with a body that decodes, with the outcome of that body; a hint only from a busy transmitter |
| `Poller.ReplyMeans` | receiver/poller.go:380-415 | the same from the reply alone, and the hint: n seconds for a Retry-After of n, the time to a date, and none for any other failure |
| `Poller.OnlyAnswersSettle` | receiver/poller.go:322-347 | what Run owes changes only with such an answer, whatever else comes back |
| `Poller.UnansweredIsPostedAgain` | receiver/poller.go:337-341 | a request without such an answer is posted again with the same acks and errors |
| `Poller.CancelEndsRun` | receiver/poller.go:310-374 | Run ends in the turn in which the context does, with nothing, its request, or its request and the timer cut short |
| `Poller.Poller.Run` | receiver/poller.go:306-374 | the requests posted and the timers started are those of a trace function of the replies; both backoffs stay usable |
| `Poller.TraceIsTurns` | receiver/poller.go:306-374 | while the context lives the trace is the events of the first i turns, one turn after the other, followed by what Run does from the loop state they lead to |
| `Poller.TurnStandsAt` | receiver/poller.go:306-374 | the i-th turn stands in the trace right after the events of the turns before it: its request, then its timer if there is one to start, then the next request |
| `Poller.Counters` | receiver/poller.go:331-372 | the two loop counters, read off the history of replies alone |
| `Poller.OwesLastBatch` | receiver/poller.go:343-347 | what Run owes is the outcome of the last batch received, however many polls failed since |
| `Poller.IdleCadence` | receiver/poller.go:349-372 | in the events of Run the request of an idle poll is followed by a timer of min(initial * 2^k, max), k the idle polls since the last poll that brought or announced something |
| `Poller.ErrorCadence` | receiver/poller.go:315-341 | in the events of Run the request of a failed poll is followed by a timer of min(initial * 2^k, max), jittered, k the like failures since the last success, or of the Retry-After itself when that is positive |
| `RunInProtocol.OwesAsRun` | receiver/poller.go:306-374 | in any protocol run the acks and errors the Poller carries are those of its Run loop on the same replies |
| `RunInProtocol.PostsAsRun` | receiver/poller.go:306-374 | in any protocol run the requests on the wire are those Run posts |
| `ChallengeTable.VerificationChallenger.Register` | receiver/verification.go:232-241 | a state in the table is refused; otherwise a new waiter takes its slot |
| `ChallengeTable.VerificationChallenger.Unregister` | receiver/verification.go:246-250 | the slot is removed whoever holds it |
| `ChallengeTable.MatchIff` | receiver/verification.go:418-470 | a SET matches exactly the waiter under the state its verification event carries, and takes no other slot |
| `ChallengeTable.VerificationChallenger.TakeMatch` | receiver/verification.go:418-431 | a SET matches by its extracted state; the matched slot is removed under the lock and its channel is empty |
| `ChallengeTable.VerificationChallenger.Deliver` | receiver/verification.go:401-441 | the payload goes into the channel of its one waiter or downstream, never both, and no other channel changes |
| `ChallengeProtocol.InvAlways` | receiver/verification.go:193-250 | the invariant of table, channels and calls in progress holds in every interleaving |
| `ChallengeProtocol.SendNeverBlocks` | receiver/verification.go:431-441 | in every interleaving a matched delivery finds its capacity-1 channel empty |
| `ChallengeProtocol.OneSetPerWaiter` | receiver/verification.go:401-441 | in every interleaving each waiter is claimed by at most one SET, of its own state |
| `ChallengeProtocol.SuccessCarriesOwnState` | receiver/verification.go:299-313 | a successful Challenge returns the SET sent to it, whose extracted state is the registered one |
| `ChallengeProtocol.SentSetIsReturnedOrSwallowed` | receiver/verification.go:299-313 | a SET sent to a waiter is returned by its Challenge unless that has given up, in which case it stays in the channel for good |
| `ChallengeProtocol.SlotIsSafeIff` | receiver/verification.go:214-218 | a new challenge is sure of its slot until matched or returned exactly when no earlier Challenge of the same state is still to return |
| `ChallengeProtocol.Eviction` | receiver/verification.go:246-250 | otherwise the earlier Challenge's deferred unregister removes the newcomer's slot |
| `ChallengeProtocol.EvictedNeverSucceeds` | receiver/verification.go:246-250 | an evicted challenge stays evicted, so it can only fail |
| `ChallengeProtocol.ReuseBeforeReturnIsPossible` | receiver/verification.go:424-431 | the situation arises after intercept deletes the slot |
| `PushHandler.AnswersMean` | receiver/push.go:99-158 | the sink is called exactly for a POST of the media type with a body within the limit, read to its end, not blank and verified; 405, 415, 413 and 400 answer the others, and 202, 400 and 503 the sink's three answers |
| `PushHandler.MediaTypeIff` | receiver/push.go:164-170 | the media type is taken in any letter case, with any space around it and any parameters, and no other is |
| `PushDelivery.PushDriver.constructor` | transmitter/pushdriver.go:178-195 | any option sequence leaves maxRetries >= 0 and 0 < initial <= max, with the values of the option semantics |
| `PushDelivery.PushDriver.Configure` | transmitter/pushdriver.go:121-146 | one option, out-of-range arguments included |
| `PushDelivery.RetriesMean` | transmitter/pushdriver.go:121-146 | over any options the last retry count decides, a negative one as zero |
| `PushDelivery.InitialMeans` | transmitter/pushdriver.go:121-146 | the last positive initial backoff decides, whatever follows |
| `PushDelivery.MaximumMeans` | transmitter/pushdriver.go:121-146 | the last maximum decides, raised to the initial backoff where it is below that |
| `PushDelivery.PushDriver.Deliver` | transmitter/pushdriver.go:221-289 | the retry loop reports what the recursive specification says: result, number of attempts, sleeps, dead-letter callbacks |
| `PushDelivery.PostsMean` | transmitter/pushdriver.go:304-355 | in terms of statuses: 2xx delivers; no answer, 408, 429 and 500 and above can be retried, and nothing else; the pause a Retry-After asks for |
| `PushDelivery.GoesOnIff` | transmitter/pushdriver.go:238-289 | an attempt is followed by another exactly when its answer can be retried and the context lived through it and its sleep |
| `PushDelivery.AttemptsAreMadeIff` | transmitter/pushdriver.go:238-289 | which attempts of the budget are made |
| `PushDelivery.ResultIsTheLastAnswer` | transmitter/pushdriver.go:238-289 | how a call ends, by the status or failure of its last attempt and the budget |
| `PushDelivery.DeadLetterAccounting` | transmitter/pushdriver.go:238-288 | the callback fires at most once, with the returned error, never on success or signing error, always on a permanent or exhausted failure; for a context error exactly when the context ended during the last POST |
| `PushDelivery.ContextIsDeadLetteredIff` | transmitter/pushdriver.go:221-288 | a context error is reported to the callback exactly for the calls with an endpoint and a signature in which every attempt but the last goes on to the next and the context ends during the last POST |
| `PushDelivery.ContextErrorIsDeadLettered` | transmitter/pushdriver.go:258-288 | a concrete call whose only POST is cut off by the context and whose callback gets the context's error |
| `PushDelivery.CallbackOnlyObserves` | transmitter/pushdriver.go:316-324 | without a callback everything else is the same |
| `PushDelivery.SleepsAreBounded` | transmitter/pushdriver.go:266-282 | for any options, jitter and Retry-After every sleep is within [0, maxBackoff], with at most maxRetries sleeps and maxRetries * maxBackoff in total |
| `PushDelivery.SleepAt` | transmitter/pushdriver.go:266-282 | the i-th sleep is computed from the i-th backoff or the i-th Retry-After |
| `PushDelivery.AskedPauseIsSlept` | transmitter/pushdriver.go:373-420 | a Retry-After of n seconds, or to a date, is slept as it is, times the jitter factor, rounded down and capped |
| `PushDelivery.OtherwiseBackoffIsSlept` | transmitter/pushdriver.go:266-282 | without one the backoff is slept in the same way |
| `PushDelivery.BackoffIsExponentialIff` | transmitter/pushdriver.go:275-282 | the backoff is min(initial * 2^k, max) for all k exactly when max < 2^62 |
| `PushDelivery.BackoffTurnsNegative` | transmitter/pushdriver.go:275-282 | with the widest bounds the second backoff is -2^63 instead of the maximum and the sleep is none at all |
| `PushDelivery.CapDuration` | transmitter/pushdriver.go:412-420 | a capped duration lies between zero and the cap |
| `PushComposition.DriverMediaTypeFits` | receiver/push.go:164-170 | the handler takes the Content-Type the driver sends |
| `PushComposition.SinkSeesOnlyThePayload` | transmitter/pushdriver.go:335-350 | driver, lossy network and handler composed: the sink is called with nothing but the payload, at most 1 + maxRetries times |
| `PushComposition.NilMeansAccepted` | receiver/push.go:99-158 | whatever is posted, signed well or not: Deliver returns nil exactly when the last attempt was answered and the sink was handed, and took, what the verifier makes of the posted text |
| `PushComposition.SuccessMeansAccepted` | transmitter/pushdriver.go:238-289 | Deliver returns nil exactly when the sink accepted in the last attempt and the reply arrived |
| `PushComposition.FailForNowIsRetried` | transmitter/pushdriver.go:338-342 | a sink's transient failure that the driver hears within the budget is followed by another attempt unless the context ends |
| `PushComposition.BadRequestEndsIt` | receiver/push.go:127-156 | after a 400 is received no attempt and no sink call follows |
| `PushComposition.OversizeNeverArrives` | receiver/push.go:178-200 | a body over the limit never reaches the sink and is never reported as delivered |
| `JsonNumbers.IsNumberIff` | memstore/memstore.go:442-444 | the scanner takes for a number exactly what the grammar of section 6 of RFC 8259 does |
| `Decimal.ParseIntIff` | client/discovery.go:170-178 | which texts strconv.ParseInt reads, and as what: a sign or none, any zeros, and the numeral of a 64-bit integer |
| `JsonText.ParseIff` | memstore/memstore.go:442-449 | the reader accepts exactly the texts that lay out a JSON tree, with any space in each gap and any legal spelling of each character, and reads each as that tree |
| `JsonText.PrintRoundTrip` | memstore/memstore.go:438-451 | what json.Marshal writes for a well-formed tree is one of its layouts, so it is read back as that tree |
| `JsonText.WrittenStrings` | memstore/memstore.go:445-449 | no written string holds a control character, HTML's special ones or the two line separators, and one without anything to escape is written as it is |
| `JsonLocality.ValueMoves` | errors.go:359-362 | reading a value depends only on the characters of the value: the same text elsewhere is read the same |
| `SubjectKeys.SortedKeysEnumerate` | memstore/memstore.go:445 | the member order is strictly increasing and complete |
| `SubjectKeys.LessIff` | memstore/memstore.go:445 | the order of keys: the shorter prefix or the smaller character at the first difference comes first |
| `SubjectKeys.LastMemberWins` | memstore/memstore.go:441-444 | a member list denotes the map of its last bindings, and nothing if any member, overridden or not, is unreadable |
| `SubjectKeys.DenotesIff` | memstore/memstore.go:441-444 | a tree denotes something exactly when every number in it, at any depth and overridden or not, can be read |
| `SubjectKeys.KeyIsThereIff` | memstore/memstore.go:426-451 | a subject has a key exactly when it is empty or lays out such a tree; any other is an invalid configuration |
| `SubjectKeys.MeaningAgreesIff` | memstore/memstore.go:434-444 | two trees denote the same exactly when they are alike: the same final bindings of every object, in any order, at every depth, and numbers float64 reads the same |
| `SubjectKeys.OrderDoesNotMatter` | memstore/memstore.go:434-437 | two member lists denote the same exactly when their final bindings are alike, at every depth, whatever the order and whatever is overridden |
| `SubjectKeys.KeyDenotesTheSubject` | memstore/memstore.go:438-451 | a key is canonical JSON that denotes what the subject denotes |
| `SubjectKeys.KeysAgreeIff` | streamstore.go:102-105 | two subjects have the same key exactly when they denote the same JSON value, numbers taken as float64 |
| `SubjectKeys.KeyIsIdempotent` | memstore/memstore.go:438-451 | the key of a key is itself |
| `SubjectKeys.OnlyTheEmptySubjectIsTheWholeStream` | memstore/memstore.go:426-441 | no subject but the empty one has the whole-stream key |
| `SubjectKeys.LayoutDoesNotMatter` | memstore/memstore.go:434-437 | any two layouts of a tree, differing in space and in the spelling of characters, have the same key |
| `SubjectKeys.LaidOutKeysAgreeIff` | streamstore.go:102-105 | two subjects, each laid out in its own way, have the same key exactly when their trees are alike |
| `SubjectKeys.NumbersCollapse` | memstore/memstore.go:441-444 | number literals share a key exactly when float64 reads them alike; one out of range is an invalid subject |
| `StoreModel.InvAlways` | memstore/memstore.go:97-123 | after any calls every stream sits under its own id, has a whole-stream status, and has no member under the whole-stream key |
| `StoreModel.RefusedIff` | memstore/memstore.go:97-326 | exactly which calls are refused and with which error, nil arguments before missing streams before bad subjects, and that a refused call changes nothing |
| `StoreModel.ReadsRefusedIff` | memstore/memstore.go:202-354 | the same for GetStreamStatus and HasSubject |
| `StoreModel.ReturnsWhatItStored` | memstore/memstore.go:97-264 | a create, update or status change that succeeds returns what reading then returns |
| `StoreModel.LifeOfAStream` | memstore/memstore.go:97-326 | whatever else the store is used for, a live stream shows the last configuration, the last status per key, the last membership per key and every token in order |
| `StoreModel.StatusIsTheLastOneSet` | memstore/memstore.go:202-264 | GetStreamStatus for any spelling of a subject: the last status set for that subject, else the last whole-stream status with the subject written in, else enabled |
| `StoreModel.MembershipIsTheLastChange` | memstore/memstore.go:270-354 | HasSubject in any spelling: whether the last call that added or removed the same subject added it, false if none did; the empty subject is never a member |
| `StoreModel.SameSubjectIsSameKey` | streamstore.go:102-105 | subjects are the same for the store exactly when both are empty or both denote the same value |
| `StoreModel.MintInjective` | memstore/memstore.go:105-108 | different counters mint different ids |
| `StoreModel.OverwrittenIdsWereSupplied` | memstore/memstore.go:105-111 | a create overwrites a live stream only under an id of the minted form that a caller supplied before |
| `StoreModel.OverwrittenIff` | memstore/memstore.go:105-111 | creates without an id eventually overwrite a live stream exactly when its id is one the store has yet to mint |
| `StoreModel.SuppliedIdIsOverwritten` | memstore/memstore.go:105-119 | a concrete overwrite that discards a queue |
| `MemoryStore.CloneRaw` | memstore/memstore.go:407-414 | a fresh copy; empty becomes nil |
| `MemoryStore.CloneStrings` | memstore/memstore.go:417-424 | a fresh copy; empty stays empty |
| `MemoryStore.CloneStreamConfig` | memstore/memstore.go:382-392 | an equal configuration in new objects; it shares a mutable object with the original exactly when the delivery is unknown |
| `MemoryStore.CloneStatusResponse` | memstore/memstore.go:395-402 | an equal status in new objects |
| `MemoryStore.InMemoryStore.CreateStream` | memstore/memstore.go:97-123 | refines the value model; the result is new and disjoint from everything the store keeps; the four maps stay in step |
| `MemoryStore.InMemoryStore.GetStream` | memstore/memstore.go:127-136 | refines the value model with a new copy |
| `MemoryStore.InMemoryStore.ListStreams` | memstore/memstore.go:144-159 | new copies of every configuration in increasing order of the ids |
| `MemoryStore.InMemoryStore.UpdateStream` | memstore/memstore.go:165-179 | refines the value model; argument and result stay separate from the store |
| `MemoryStore.InMemoryStore.DeleteStream` | memstore/memstore.go:183-192 | refines the value model; idempotent |
| `MemoryStore.InMemoryStore.GetStreamStatus` | memstore/memstore.go:202-231 | refines the value model with a new copy, inheritance included |
| `MemoryStore.InMemoryStore.SetStreamStatus` | memstore/memstore.go:239-264 | refines the value model; the request's bytes are not retained |
| `MemoryStore.InMemoryStore.AddSubject` | memstore/memstore.go:270-290 | refines the value model, error cases included |
| `MemoryStore.InMemoryStore.RemoveSubject` | memstore/memstore.go:295-311 | refines the value model, error cases included |
| `MemoryStore.InMemoryStore.EnqueueSET` | memstore/memstore.go:317-326 | refines the value model: the token goes to the end of the queue |
| `MemoryStore.InMemoryStore.Has` | memstore/memstore.go:340-354 | refines the value model of HasSubject for raw, typed and nil subjects |
| `MemoryStore.InMemoryStore.QueuedSETs` | memstore/memstore.go:365-376 | a new slice with the queue in order |
| `StoreSession.Caller.Play` | memstore/memstore.go:97-424 | over any sequence of calls, listing included, and of writes to all configurations, status requests, status responses and slices passed in or handed out, the caller reaches no object of the store's, the store equals the calls replayed on its value, every stored configuration still carries its own id, and the caller's objects are apart from all that can be reached from the store exactly when every delivery in it is known |
| `StoreSession.Caller.CallList` | memstore/memstore.go:144-159 | after any session and a listing, the configurations the caller holds are apart from all that can be reached from the store, unknown deliveries included, exactly when every delivery in it is known |
| `StoreSession.UnknownBytesAreShared` | memstore/memstore.go:378-392 | the exception: bytes of an unknown delivery written through one returned configuration show in the next |
| `StoreSession.SharedBytesComeFromCallers` | stream.go:206-211 | the only bytes the store shares are those callers passed in with unknown deliveries |
| `ProblemObjects.ObjectIff` | errors.go:326-388 | the token loop succeeds exactly on texts that begin with a JSON object and takes just its members, in order |
| `ProblemObjects.LaidOutObjectIsRead` | errors.go:344-358 | an object in any layout is read member by member |
| `ProblemObjects.DecodesIff` | errors.go:326-409 | a text decodes exactly when it begins with an object whose registered members are null or of their field's type |
| `ProblemObjects.LaidOutDocumentsDecodeIff` | errors.go:326-409 | the same for every layout of a given object |
| `ProblemObjects.FieldsAreInOrder` | errors.go:240-311 | the registered members are written in the order of the specification, the zero ones left out |
| `ProblemText.ExtensionsSurviveIff` | errors.go:424-452 | after decoding, the Extensions text still holds the extension members in order with unchanged values exactly when their keys need no JSON escaping |
| `ProblemText.NeverCatchesUp` | errors.go:371-381 | a key written unescaped is read back as itself only if it needs no escaping, however much text the reader takes for it |
| `ProblemText.EncodeAfterDecode` | errors.go:240-311 | encoding what was decoded gives a document with the non-zero registered members in fixed order and then the extension members in wire order exactly when the extension keys need no escaping |
| `ProblemText.DecodeAfterEncode` | errors.go:326-388 | a document, decoded or built by hand, decodes back to itself from its encoding exactly when its Extensions text is absent or is itself what writing some unregistered members with plain keys gives |
| `ProblemText.EscapedKeyIsLost` | errors.go:371-381 | a concrete document with an escaped key: it decodes, and what was decoded has no encoding |
| `ProblemText.LastDuplicateWins` | errors.go:393-409 | the last non-null occurrence of a registered member decides its field |
| `ProblemText.AbsentIsZero` | errors.go:393-409 | a registered member that is absent or only null leaves its field zero |
| `ProblemText.WriteReads` | errors.go:424-452 | text written from members with plain keys is read back member by member |
| `ProblemText.ScanIsSound` | errors.go:344-362 | every value text the decoder loop cuts out is a complete JSON value |
| `ProblemDetails.ProblemDetails.UnmarshalJSON` | errors.go:326-388 | the token loop computes Decode, whatever the object held before |
| `ProblemDetails.ProblemDetails.MarshalJSON` | errors.go:240-311 | the buffer-writing code computes Encode |
| `ProblemDetails.ProblemDetails.AssignRegistered` | errors.go:393-409 | one registered member into its field, or a type error |
| `ProblemDetails.ExtensionMembers` | errors.go:424-452 | the loop returns the ordered members, or an error |
| `CacheControl.ParseCacheControl` | client/discovery.go:153-180 | the last valid max-age counts and any no-store or no-cache forbids |
| `CacheControl.SummaryIsUnique` | client/discovery.go:153-180 | that description determines the result |
| `CacheControl.ForbidsIff` | client/discovery.go:153-180 | a part forbids keeping exactly when it is no-store or no-cache, in any case and with any space, with or without a value |
| `CacheControl.MaxAgeIff` | client/discovery.go:153-180 | a part gives a max-age exactly when it is max-age with a decimal value of 64 bits that is not negative |
| `ConfigCache.KeptIff` | client/discovery.go:284-303 | a response is kept unless it forbids that or has max-age zero, and for the ttl when it has no max-age |
| `ConfigCache.FreshnessIsBounded` | client/discovery.go:284-303 | wrap-around never keeps an entry longer than the ttl or the max-age |
| `ConfigCache.FreshnessIsMinimumIff` | client/discovery.go:284-303 | the lifetime is min(ttl, max-age) exactly unless the product wraps below the ttl |
| `ConfigCache.HugeMaxAgeWraps` | client/discovery.go:284-303 | a max-age of about 585 years wraps to a lifetime of less than a third of a second |
| `ConfigCache.ConfigCache.Lookup` | client/discovery.go:263-276 | the entry if it has not expired |
| `ConfigCache.ConfigCache.Store` | client/discovery.go:284-303 | a response with a lifetime replaces the entry of its key; any other changes nothing |
| `ConfigCache.ConfigCache.Fetch` | client/discovery.go:237-256 | when the origin is asked, what is returned, and what the table holds afterwards |
| `CacheProtocol.InvAlways` | client/discovery.go:237-303 | the invariant of table and calls in progress holds in every interleaving |
| `CacheProtocol.CachedAnswersAreFresh` | client/discovery.go:237-303 | in every run with concurrent fetches a cached answer is the origin's own for that key, allowed to be kept, and younger than ttl and max-age in ideal arithmetic |
| `CacheProtocol.FreshEntryIsServed` | client/discovery.go:263-276 | in every run, whatever other calls do in between: once a key has an entry every later call for it finds one, and is answered from what it found exactly when that has not expired when it is checked |
| `DeliveryRegistry.DeliveryMethods.Register` | delivery_registry.go:85-93 | built-ins are refused; any other method is set or replaced |
| `DeliveryRegistry.DeliveryMethods.RegisterAll` | delivery_registry.go:85-93 | any sequence of registrations |
| `DeliveryRegistry.RegistryOnlyGrows` | delivery_registry.go:85-109 | methods never disappear and appear only by registration, built-ins keep their factories, and any other resolves to its last registration |
| `DeliveryCodec.ReadFieldMeans` | stream.go:235-296 | the last member with the field's name in any case that is not null decides it; one that is not a string is an error |
| `DeliveryCodec.DecodesIff` | stream.go:235-296 | which texts decode: objects and null with a readable method, and readable fields when that is registered |
| `DeliveryCodec.DecodedFields` | stream.go:235-296 | what they decode to |
| `DeliveryCodec.UnknownSurvives` | stream.go:235-296 | a text is decoded as unknown exactly when its method is not registered; it then re-encodes character by character, and reads back the same after any registrations exactly when none of them claimed its method |
| `DeliveryCodec.KnownRoundTripIff` | stream.go:235-296 | which known deliveries survive encode and decode under a registry: the method is registered and no empty field has a non-empty seed |
| `DeliveryCodec.SeedFillsEmptiedField` | stream.go:235-296 | a factory with an endpoint of its own puts it back where it was emptied |
| `DeliveryCodec.KnownSurvives` | stream.go:235-296 | with factories that set only the method, a known delivery survives under every later registry |

## Left out

- HTTP requests, responses, headers beyond those named, URL joining and body draining: plumbing.
- JWS signing and verification: outside code, assumed inverse to each other.
- `transmitter/handlers.go`, `transmitter/mux.go`, `transmitter/wellknown.go`, authentication and the status tables: each is settled by one branch.
- Plain wire structs and the JSON tags derived from them.
- HTTP dates in Retry-After: the parsed date is an input.
- The order in which Go ranges over a map: the order of a batch, of error reports and of worker results is arbitrary.
- Poller.Poller.Run: the endless loop is modelled on a finite script of rounds, of any length; its branch for a success that carries a Retry-After is not modelled, since pollOnce never returns one.
- PushComposition.OversizeNeverArrives: the limit on the body counts characters, where the code counts bytes.
- PushDelivery.PushDriver.Deliver: an attempt whose request cannot be built, on which nothing is sent, counts as an attempt like any other.
- DeliveryCodec.KnownRoundTripIff: a registered factory is the constant value it returns; one whose results vary is not modelled.
- PushComposition.SinkSeesOnlyThePayload: does not model a request that reaches the handler only after Deliver has returned.
- Goroutine scheduling: locks and channels appear as atomic steps whose order is arbitrary; fairness and memory ordering are not modelled.
- MemoryStore.InMemoryStore.CreateStream: the counter of minted ids is unbounded, where Go's int would wrap after 2^63 creates.
- MemoryStore.InMemoryStore.AddSubject: the identifier argument is its JSON encoding; go-subjectid is not part of this model.
- StoreSession.Caller.Play: the value of a stream includes which carrier an unknown delivery has, not the bytes in it, because those are shared.
- JsonText.PrintRoundTrip: encoding/json's nesting limit, its repair of invalid UTF-8 and surrogates outside pairs on writing are not modelled.
- DeliveryCodec.UnknownSurvives: states what MarshalJSON itself returns; the compaction that an enclosing json.Marshal applies is not modelled.
- ProblemDetails.ProblemDetails.UnmarshalJSON: says nothing about the fields after an error, which the code leaves half assigned.
- Text outside Latin-1 in header values: trimming and case folding cover the characters that headers and keys of these documents use.
- Default values and timeouts that options only copy.
