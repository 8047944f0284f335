/** memstore/memstore.go on values: what the store knows, and what each call does to it. */
module StoreModel {
  import opened Decimal
  import opened Wrappers
  import opened Json
  import opened JsonText
  import opened SubjectKeys

  /** The carrier of a delivery method unknown to the registry. A Delivery holds it by reference, and
      its bytes can be written through that reference (Delivery.Unknown hands them out). */
  class UnknownDelivery {
    const uri: string
    const raw: array<char>

    constructor (uri: string, raw: array<char>)
      ensures this.uri == uri && this.raw == raw
    {
      this.uri, this.raw := uri, raw;
    }
  }

  datatype Delivery = Delivery(uri: string, endpointURL: string, authorizationHeader: string,
                               unknown: UnknownDelivery?) {
    predicate Known() { unknown == null }
  }

  /** A StreamConfig by value; None is a nil slice. */
  datatype Config = Config(
    streamID: string,
    iss: string,
    aud: string,
    supported: Option<seq<string>>,
    requested: Option<seq<string>>,
    delivered: Option<seq<string>>,
    delivery: Delivery,
    minVerificationInterval: int,
    format: string)

  /** A StatusResponse, and a StatusUpdateRequest, by value. */
  datatype Status = Status(status: string, reason: string, subject: string)

  const ENABLED := Status("enabled", "", "")

  datatype Stream = Stream(config: Config, statuses: map<string, Status>, subjects: set<string>, queue: seq<string>)

  datatype Store = Store(streams: map<string, Stream>, minted: nat)

  const EMPTY := Store(map[], 0)

  /** What json.Marshal gives for an identifier; it is never empty. */
  type Encoding = t: string | t != "" witness "0"

  /** The subject argument of HasSubject: nil, raw bytes, or anything else, with its JSON encoding if
      it has one (a request stands for the identifier in it). */
  datatype AnySubject = Nil | Raw(bytes: string) | Typed(encoding: Option<Encoding>)

  // ---------------------------------------------------------------- minted ids

  /** The n-th id the store mints. */
  function Mint(idSeed: string, n: nat): string {
    "stream-" + idSeed + "-" + Digits(n)
  }

  // ---------------------------------------------------------------- the calls

  function IdFor(idSeed: string, m: Store, cfg: Config): string {
    if cfg.streamID == "" then Mint(idSeed, m.minted + 1) else cfg.streamID
  }

  function Create(idSeed: string, m: Store, cfg: Option<Config>): (Store, Result<Config, Error>) {
    if cfg.None? then (m, Err(InvalidConfig))
    else
      var id := IdFor(idSeed, m, cfg.value);
      if cfg.value.streamID != "" && id in m.streams then (m, Err(InvalidConfig))
      else
        var stored := cfg.value.(streamID := id);
        (Store(m.streams[id := Stream(stored, map["" := ENABLED], {}, [])],
               if cfg.value.streamID == "" then m.minted + 1 else m.minted),
         Ok(stored))
  }

  function Get(m: Store, id: string): Result<Config, Error> {
    if id in m.streams then Ok(m.streams[id].config) else Err(StreamNotFound)
  }

  /** Every configuration, in the order of the ids. */
  function ListAll(m: Store): (page: seq<Config>)
    ensures var ids := SortedKeys(m.streams.Keys);
      && |page| == |ids| && Increasing(ids)
      && forall i | 0 <= i < |ids| :: ids[i] in m.streams && page[i] == m.streams[ids[i]].config
  {
    var ids := SortedKeys(m.streams.Keys);
    SortedKeysEnumerate(m.streams.Keys);
    assert forall i | 0 <= i < |ids| :: ids[i] in ids;
    seq(|ids|, i requires 0 <= i < |ids| => m.streams[ids[i]].config)
  }

  function Update(m: Store, cfg: Option<Config>): (Store, Result<Config, Error>) {
    if cfg.None? then (m, Err(InvalidConfig))
    else if cfg.value.streamID !in m.streams then (m, Err(StreamNotFound))
    else
      var id := cfg.value.streamID;
      (m.(streams := m.streams[id := m.streams[id].(config := cfg.value)]), Ok(cfg.value))
  }

  function Delete(m: Store, id: string): Store {
    m.(streams := m.streams - {id})
  }

  /** The status of a subject, or of the whole stream for the empty one. A subject without a status of
      its own has that of the whole stream. */
  function GetStatus(f: Floats, m: Store, id: string, subject: string): Result<Status, Error> {
    if id !in m.streams then Err(StreamNotFound)
    else
      match Key(f, subject)
      case Err(e) => Err(e)
      case Ok(key) =>
        var bucket := m.streams[id].statuses;
        if key in bucket then Ok(bucket[key])
        else if "" in bucket then Ok(bucket[""].(subject := subject))
        else Ok(ENABLED.(subject := subject))
  }

  function SetStatus(f: Floats, m: Store, id: string, req: Option<Status>): (Store, Result<Status, Error>) {
    if req.None? then (m, Err(InvalidConfig))
    else if id !in m.streams then (m, Err(StreamNotFound))
    else
      match Key(f, req.value.subject)
      case Err(e) => (m, Err(e))
      case Ok(key) =>
        var st := m.streams[id];
        (m.(streams := m.streams[id := st.(statuses := st.statuses[key := req.value])]), Ok(req.value))
  }

  /** canonicalSubjectKeyFromIdentifier of an identifier with the given JSON encoding; None stands for
      nil and for what cannot be encoded. */
  function KeyOf(f: Floats, encoding: Option<Encoding>): Result<string, Error> {
    if encoding.None? then Err(InvalidConfig) else Key(f, encoding.value)
  }

  function KeyOfAny(f: Floats, subject: AnySubject): Result<string, Error> {
    match subject
    case Nil => Err(InvalidConfig)
    case Raw(bytes) => Key(f, bytes)
    case Typed(encoding) => KeyOf(f, encoding)
  }

  /** AddSubject and RemoveSubject; the request is None when nil. */
  function SetMembership(f: Floats, m: Store, id: string, req: Option<Option<Encoding>>, present: bool)
    : (Store, Option<Error>)
  {
    if req.None? then (m, Some(InvalidConfig))
    else if id !in m.streams then (m, Some(StreamNotFound))
    else
      match KeyOf(f, req.value)
      case Err(e) => (m, Some(e))
      case Ok(key) =>
        var st := m.streams[id];
        var subjects := if present then st.subjects + {key} else st.subjects - {key};
        (m.(streams := m.streams[id := st.(subjects := subjects)]), None)
  }

  function HasSubject(f: Floats, m: Store, id: string, subject: AnySubject): Result<bool, Error> {
    if id !in m.streams then Err(StreamNotFound)
    else
      match KeyOfAny(f, subject)
      case Err(e) => Err(e)
      case Ok(key) => Ok(key in m.streams[id].subjects)
  }

  function Enqueue(m: Store, id: string, jws: string): (Store, Option<Error>) {
    if id !in m.streams then (m, Some(StreamNotFound))
    else
      var st := m.streams[id];
      (m.(streams := m.streams[id := st.(queue := st.queue + [jws])]), None)
  }

  // ---------------------------------------------------------------- runs

  datatype Call =
    | CreateStream(cfg: Option<Config>)
    | UpdateStream(cfg: Option<Config>)
    | DeleteStream(id: string)
    | SetStreamStatus(id: string, req: Option<Status>)
    | AddSubject(id: string, subject: Option<Option<Encoding>>)
    | RemoveSubject(id: string, subject: Option<Option<Encoding>>)
    | EnqueueSET(id: string, jws: string)

  /** Floats as the platform has them, and the random part of minted ids. */
  datatype Setting = Setting(f: Floats, idSeed: string)

  function After(c: Setting, m: Store, call: Call): Store {
    match call
    case CreateStream(cfg) => Create(c.idSeed, m, cfg).0
    case UpdateStream(cfg) => Update(m, cfg).0
    case DeleteStream(id) => Delete(m, id)
    case SetStreamStatus(id, req) => SetStatus(c.f, m, id, req).0
    case AddSubject(id, subject) => SetMembership(c.f, m, id, subject, true).0
    case RemoveSubject(id, subject) => SetMembership(c.f, m, id, subject, false).0
    case EnqueueSET(id, jws) => Enqueue(m, id, jws).0
  }

  function Run(c: Setting, m: Store, calls: seq<Call>): Store {
    if calls == [] then m else After(c, Run(c, m, calls[..|calls| - 1]), calls[|calls| - 1])
  }

  /** What holds of every store reached from the empty one. */
  ghost predicate Inv(m: Store) {
    forall id <- m.streams ::
      && m.streams[id].config.streamID == id
      && "" in m.streams[id].statuses
      && "" !in m.streams[id].subjects
  }

  lemma {:induction false} InvAlways(c: Setting, calls: seq<Call>)
    requires c.f.Faithful()
    ensures Inv(Run(c, EMPTY, calls))
  {
    if calls != [] {
      InvAlways(c, calls[..|calls| - 1]);
      var m := Run(c, EMPTY, calls[..|calls| - 1]);
      match calls[|calls| - 1] {
        case AddSubject(id, Some(Some(t))) => OnlyTheEmptySubjectIsTheWholeStream(c.f, t);
        case _ =>
      }
    }
  }

  // ---------------------------------------------------------------- which calls are refused

  function ErrorOf<T>(r: Result<T, Error>): Option<Error> {
    if r.Err? then Some(r.error) else None
  }

  /** The error the call returns, if any. */
  function Refusal(c: Setting, m: Store, call: Call): Option<Error> {
    match call
    case CreateStream(cfg) => ErrorOf(Create(c.idSeed, m, cfg).1)
    case UpdateStream(cfg) => ErrorOf(Update(m, cfg).1)
    case DeleteStream(_) => None
    case SetStreamStatus(id, req) => ErrorOf(SetStatus(c.f, m, id, req).1)
    case AddSubject(id, subject) => SetMembership(c.f, m, id, subject, true).1
    case RemoveSubject(id, subject) => SetMembership(c.f, m, id, subject, false).1
    case EnqueueSET(id, jws) => Enqueue(m, id, jws).1
  }

  predicate NilArgument(call: Call) {
    match call
    case CreateStream(cfg) => cfg.None?
    case UpdateStream(cfg) => cfg.None?
    case SetStreamStatus(_, req) => req.None?
    case AddSubject(_, subject) => subject.None?
    case RemoveSubject(_, subject) => subject.None?
    case _ => false
  }

  /** The stream that has to be there for the call, if one has. */
  function StreamOf(call: Call): Option<string> {
    match call
    case UpdateStream(Some(cfg)) => Some(cfg.streamID)
    case SetStreamStatus(id, _) => Some(id)
    case AddSubject(id, _) => Some(id)
    case RemoveSubject(id, _) => Some(id)
    case EnqueueSET(id, _) => Some(id)
    case _ => None
  }

  /** The text is the empty subject, or a JSON text all of whose numbers can be read. */
  ghost predicate GoodSubject(f: Floats, t: string) {
    t == "" || exists j :: Layout(t, j) && NumbersRead(f, j)
  }

  /** The subject the call names, if it names one at all, cannot be taken. */
  ghost predicate BadSubject(f: Floats, call: Call) {
    match call
    case SetStreamStatus(_, Some(req)) => !GoodSubject(f, req.subject)
    case AddSubject(_, Some(t)) => t.None? || !GoodSubject(f, t.value)
    case RemoveSubject(_, Some(t)) => t.None? || !GoodSubject(f, t.value)
    case _ => false
  }

  ghost predicate IdTaken(m: Store, call: Call) {
    call.CreateStream? && call.cfg.Some? && call.cfg.value.streamID != "" && call.cfg.value.streamID in m.streams
  }

  ghost predicate StreamMissing(m: Store, call: Call) {
    !NilArgument(call) && StreamOf(call).Some? && StreamOf(call).value !in m.streams
  }

  lemma GoodSubjectIff(f: Floats, t: string)
    ensures Key(f, t).Ok? <==> GoodSubject(f, t)
    ensures Key(f, t).Err? ==> Key(f, t).error == InvalidConfig
  {
    KeyIsThereIff(f, t);
  }

  lemma BadSubjectKeys(f: Floats, call: Call)
    ensures call.SetStreamStatus? && call.req.Some? ==> (BadSubject(f, call) <==> Key(f, call.req.value.subject).Err?)
    ensures (call.AddSubject? || call.RemoveSubject?) && call.subject.Some? ==>
              (BadSubject(f, call) <==> KeyOf(f, call.subject.value).Err?)
    ensures forall t: string :: Key(f, t).Err? ==> Key(f, t).error == InvalidConfig
  {
    hide Key, GoodSubject;
    forall t: string
      ensures Key(f, t).Err? ==> Key(f, t).error == InvalidConfig
      ensures Key(f, t).Ok? <==> GoodSubject(f, t)
    {
      GoodSubjectIff(f, t);
    }
  }

  /** Exactly which calls are refused, with which error, in any store; and a refused call changes
      nothing. A nil argument comes before a missing stream, and that before a bad subject. */
  lemma RefusedIff(c: Setting, m: Store, call: Call)
    ensures Refusal(c, m, call) == Some(StreamNotFound) <==> StreamMissing(m, call)
    ensures Refusal(c, m, call) == Some(InvalidConfig) <==>
            NilArgument(call) || IdTaken(m, call) || (!StreamMissing(m, call) && BadSubject(c.f, call))
    ensures Refusal(c, m, call).Some? ==> After(c, m, call) == m
  {
    BadSubjectKeys(c.f, call);
    hide Key, Mint, BadSubject;
    NoBadSubject(c.f, call);
  }

  lemma NoBadSubject(f: Floats, call: Call)
    ensures NilArgument(call) || !(call.SetStreamStatus? || call.AddSubject? || call.RemoveSubject?) ==>
              !BadSubject(f, call)
  {
  }

  /** A call that is not refused returns what it stored: the configuration under its id, the minted one
      if it had none, or the status. */
  lemma ReturnsWhatItStored(c: Setting, m: Store, cfg: Config, id: string, req: Status)
    ensures var (n, r) := Create(c.idSeed, m, Some(cfg));
      r.Ok? ==>
        && r.value == cfg.(streamID := if cfg.streamID == "" then Mint(c.idSeed, m.minted + 1) else cfg.streamID)
        && Get(n, r.value.streamID) == Ok(r.value)
    ensures var (n, r) := Update(m, Some(cfg));
      r.Ok? ==> r.value == cfg && Get(n, cfg.streamID) == Ok(cfg)
    ensures var (n, r) := SetStatus(c.f, m, id, Some(req));
      r.Ok? ==> r.value == req && GetStatus(c.f, n, id, req.subject) == Ok(req)
  {
    hide Key, Mint;
  }

  /** The two calls that only read are refused for the same reasons. */
  lemma ReadsRefusedIff(c: Setting, m: Store, id: string, subject: string, any: AnySubject)
    ensures ErrorOf(GetStatus(c.f, m, id, subject)) ==
            if id !in m.streams then Some(StreamNotFound)
            else if GoodSubject(c.f, subject) then None else Some(InvalidConfig)
    ensures ErrorOf(HasSubject(c.f, m, id, any)) ==
            if id !in m.streams then Some(StreamNotFound)
            else if any.Nil? || (any.Typed? && any.encoding.None?) then Some(InvalidConfig)
            else if GoodSubject(c.f, if any.Raw? then any.bytes else any.encoding.value) then None
            else Some(InvalidConfig)
  {
    hide Key, GoodSubject;
    forall t: string
      ensures Key(c.f, t).Ok? <==> GoodSubject(c.f, t)
      ensures Key(c.f, t).Err? ==> Key(c.f, t).error == InvalidConfig
    {
      GoodSubjectIff(c.f, t);
    }
  }

  // ---------------------------------------------------------------- the life of one stream

  /** The call ends the present life of a live stream: it deletes it, or mints its id once more. A
      create that names the id itself is refused. */
  ghost predicate Replaces(c: Setting, m: Store, call: Call, id: string) {
    || call == DeleteStream(id)
    || (call.CreateStream? && call.cfg.Some? && call.cfg.value.streamID == "" && Mint(c.idSeed, m.minted + 1) == id)
  }

  ghost predicate Undisturbed(c: Setting, m: Store, calls: seq<Call>, id: string) {
    forall i | 0 <= i < |calls| :: !Replaces(c, Run(c, m, calls[..i]), calls[i], id)
  }

  /** The tokens enqueued for the stream, in order. */
  function Enqueued(calls: seq<Call>, id: string): seq<string> {
    if calls == [] then []
    else
      var last := calls[|calls| - 1];
      Enqueued(calls[..|calls| - 1], id) + if last.EnqueueSET? && last.id == id then [last.jws] else []
  }

  /** The last status recorded for the stream under the key. */
  function LastStatus(f: Floats, calls: seq<Call>, id: string, key: string): Option<Status> {
    if calls == [] then None
    else
      var last := calls[|calls| - 1];
      if last.SetStreamStatus? && last.id == id && last.req.Some? && Key(f, last.req.value.subject) == Ok(key) then
        last.req
      else LastStatus(f, calls[..|calls| - 1], id, key)
  }

  /** Whether the subject with the key was last added or last removed. */
  function LastMembership(f: Floats, calls: seq<Call>, id: string, key: string): Option<bool> {
    if calls == [] then None
    else
      var last := calls[|calls| - 1];
      if last.AddSubject? && last.id == id && last.subject.Some? && KeyOf(f, last.subject.value) == Ok(key) then
        Some(true)
      else if last.RemoveSubject? && last.id == id && last.subject.Some? && KeyOf(f, last.subject.value) == Ok(key) then
        Some(false)
      else LastMembership(f, calls[..|calls| - 1], id, key)
  }

  function LastConfig(calls: seq<Call>, id: string): Option<Config> {
    if calls == [] then None
    else
      var last := calls[|calls| - 1];
      if last.UpdateStream? && last.cfg.Some? && last.cfg.value.streamID == id then last.cfg
      else LastConfig(calls[..|calls| - 1], id)
  }

  ghost predicate StatusLived(f: Floats, calls: seq<Call>, id: string, key: string, start: Stream, now: Stream) {
    var last := LastStatus(f, calls, id, key);
    && (key in now.statuses <==> key in start.statuses || last.Some?)
    && (key in now.statuses ==> now.statuses[key] == if last.Some? then last.value else start.statuses[key])
  }

  ghost predicate MembershipLived(f: Floats, calls: seq<Call>, id: string, key: string, start: Stream, now: Stream) {
    var last := LastMembership(f, calls, id, key);
    key in now.subjects <==> if last.Some? then last.value else key in start.subjects
  }

  ghost predicate ConfigLived(calls: seq<Call>, id: string, start: Stream, now: Stream) {
    var last := LastConfig(calls, id);
    now.config == if last.Some? then last.value else start.config
  }

  ghost predicate QueueLived(calls: seq<Call>, id: string, start: Stream, now: Stream) {
    now.queue == start.queue + Enqueued(calls, id)
  }

  /** `now` is what the calls make of the stream `start`. */
  ghost predicate Lived(f: Floats, calls: seq<Call>, id: string, start: Stream, now: Stream) {
    && ConfigLived(calls, id, start, now)
    && QueueLived(calls, id, start, now)
    && forall key :: StatusLived(f, calls, id, key, start, now) && MembershipLived(f, calls, id, key, start, now)
  }

  /** Whatever else the store is used for in between, a live stream shows exactly the last
      configuration given to it, the last status per key, the last membership per key and every token
      in order, and no call on another stream reaches it. */
  lemma {:induction false} LifeOfAStream(c: Setting, m: Store, calls: seq<Call>, id: string)
    requires id in m.streams && Undisturbed(c, m, calls, id)
    ensures id in Run(c, m, calls).streams
    ensures Lived(c.f, calls, id, m.streams[id], Run(c, m, calls).streams[id])
    decreases |calls|
  {
    if calls != [] {
      var init := calls[..|calls| - 1];
      forall i | 0 <= i < |init|
        ensures !Replaces(c, Run(c, m, init[..i]), init[i], id)
      {
        assert init[..i] == calls[..i];
      }
      LifeOfAStream(c, m, init, id);
      OneMore(c, Run(c, m, init), init, calls[|calls| - 1], id, m.streams[id]);
      assert calls == init + [calls[|calls| - 1]];
    }
  }

  /** What a call does to the one stream. */
  function Touch(f: Floats, st: Stream, call: Call, id: string): Stream {
    match call
    case UpdateStream(Some(cfg)) => if cfg.streamID == id then st.(config := cfg) else st
    case SetStreamStatus(i, Some(req)) =>
      if i == id && Key(f, req.subject).Ok? then st.(statuses := st.statuses[Key(f, req.subject).value := req]) else st
    case AddSubject(i, Some(t)) =>
      if i == id && KeyOf(f, t).Ok? then st.(subjects := st.subjects + {KeyOf(f, t).value}) else st
    case RemoveSubject(i, Some(t)) =>
      if i == id && KeyOf(f, t).Ok? then st.(subjects := st.subjects - {KeyOf(f, t).value}) else st
    case EnqueueSET(i, jws) => if i == id then st.(queue := st.queue + [jws]) else st
    case _ => st
  }

  lemma AfterTouches(c: Setting, m: Store, call: Call, id: string)
    requires id in m.streams && !Replaces(c, m, call, id)
    ensures id in After(c, m, call).streams && After(c, m, call).streams[id] == Touch(c.f, m.streams[id], call, id)
  {
    hide Key, Mint, KeyOf;
  }

  lemma OneMore(c: Setting, m: Store, init: seq<Call>, last: Call, id: string, start: Stream)
    requires id in m.streams && Lived(c.f, init, id, start, m.streams[id]) && !Replaces(c, m, last, id)
    ensures id in After(c, m, last).streams
    ensures Lived(c.f, init + [last], id, start, After(c, m, last).streams[id])
  {
    hide After, Touch, StatusLived, MembershipLived, ConfigLived, QueueLived;
    AfterTouches(c, m, last, id);
    var now := m.streams[id];
    var next := Touch(c.f, now, last, id);
    forall key
      ensures ConfigLived(init + [last], id, start, next) && QueueLived(init + [last], id, start, next)
      ensures StatusLived(c.f, init + [last], id, key, start, next)
      ensures MembershipLived(c.f, init + [last], id, key, start, next)
    {
      assert StatusLived(c.f, init, id, key, start, now) && MembershipLived(c.f, init, id, key, start, now);
      TouchIsOneScan(c.f, last, id, key, now);
      Extend(c.f, init, last, id, key, start, now, next);
    }
    var key := "";
    assert StatusLived(c.f, init + [last], id, key, start, next);
  }

  lemma Extend(
      f: Floats, init: seq<Call>, last: Call, id: string, key: string, start: Stream, now: Stream, next: Stream)
    requires ConfigLived(init, id, start, now) && ConfigLived([last], id, now, next)
    requires QueueLived(init, id, start, now) && QueueLived([last], id, now, next)
    requires StatusLived(f, init, id, key, start, now) && StatusLived(f, [last], id, key, now, next)
    requires MembershipLived(f, init, id, key, start, now) && MembershipLived(f, [last], id, key, now, next)
    ensures ConfigLived(init + [last], id, start, next) && QueueLived(init + [last], id, start, next)
    ensures StatusLived(f, init + [last], id, key, start, next)
    ensures MembershipLived(f, init + [last], id, key, start, next)
  {
    hide LastConfig, LastStatus, LastMembership, Enqueued;
    ScansStep(f, init, last, id, key);
  }

  lemma ScansStep(f: Floats, init: seq<Call>, last: Call, id: string, key: string)
    ensures LastConfig(init + [last], id) ==
      if LastConfig([last], id).Some? then LastConfig([last], id) else LastConfig(init, id)
    ensures Enqueued(init + [last], id) == Enqueued(init, id) + Enqueued([last], id)
    ensures LastStatus(f, init + [last], id, key) ==
      if LastStatus(f, [last], id, key).Some? then LastStatus(f, [last], id, key) else LastStatus(f, init, id, key)
    ensures LastMembership(f, init + [last], id, key) ==
      if LastMembership(f, [last], id, key).Some? then LastMembership(f, [last], id, key)
      else LastMembership(f, init, id, key)
  {
    hide Key, KeyOf;
    var calls := init + [last];
    assert calls[..|calls| - 1] == init && calls[|calls| - 1] == last;
    assert [last][..0] == [] && [last][0] == last;
  }

  lemma TouchIsOneScan(f: Floats, last: Call, id: string, key: string, now: Stream)
    ensures var next := Touch(f, now, last, id);
      && ConfigLived([last], id, now, next) && QueueLived([last], id, now, next)
      && StatusLived(f, [last], id, key, now, next) && MembershipLived(f, [last], id, key, now, next)
  {
    var one := [last];
    assert one[..|one| - 1] == [] && one[|one| - 1] == last;
  }

  // ---------------------------------------------------------------- what a caller sees of it

  /** The last status set since for a subject that denotes what `subject` denotes. */
  ghost predicate IsLastFor(f: Floats, calls: seq<Call>, id: string, subject: string, i: nat) {
    && i < |calls| && SetsFor(f, calls[i], id, subject)
    && forall j | i < j < |calls| :: !SetsFor(f, calls[j], id, subject)
  }

  /** The call sets the status of a subject that is the given one, whatever its spelling. */
  ghost predicate SetsFor(f: Floats, call: Call, id: string, subject: string) {
    && call.SetStreamStatus? && call.id == id && call.req.Some?
    && SameSubject(f, call.req.value.subject, subject)
  }

  /** Both are the whole stream, or both are JSON texts of the same value. */
  ghost predicate SameSubject(f: Floats, t: string, u: string) {
    if t == "" || u == "" then t == u else Denotes(f, t).Some? && Denotes(f, t) == Denotes(f, u)
  }

  lemma SameSubjectIsSameKey(f: Floats, t: string, u: string)
    requires f.Faithful()
    ensures SameSubject(f, t, u) <==> Key(f, t).Ok? && Key(f, t) == Key(f, u)
  {
    if t == "" || u == "" {
      OnlyTheEmptySubjectIsTheWholeStream(f, t);
      OnlyTheEmptySubjectIsTheWholeStream(f, u);
    } else if Key(f, t).Ok? && Key(f, u).Ok? {
      KeysAgreeIff(f, t, u);
    }
  }

  lemma LastStatusUnfolds(f: Floats, calls: seq<Call>, id: string, subject: string)
    requires f.Faithful() && Key(f, subject).Ok? && calls != []
    ensures var last := calls[|calls| - 1]; var key := Key(f, subject).value;
      LastStatus(f, calls, id, key) ==
      if SetsFor(f, last, id, subject) then last.req else LastStatus(f, calls[..|calls| - 1], id, key)
  {
    hide Key, SameSubject;
    var last := calls[|calls| - 1];
    if last.SetStreamStatus? && last.req.Some? {
      SameSubjectIsSameKey(f, last.req.value.subject, subject);
    }
  }

  lemma {:induction false} LastStatusIs(f: Floats, calls: seq<Call>, id: string, subject: string, i: nat)
    requires f.Faithful() && Key(f, subject).Ok? && IsLastFor(f, calls, id, subject, i)
    ensures LastStatus(f, calls, id, Key(f, subject).value) == calls[i].req
    decreases |calls|
  {
    hide Key, SetsFor, LastStatus;
    LastStatusUnfolds(f, calls, id, subject);
    var init := calls[..|calls| - 1];
    if i < |init| {
      assert !SetsFor(f, calls[|init|], id, subject);
      assert forall j | 0 <= j < |init| :: init[j] == calls[j];
      LastStatusIs(f, init, id, subject, i);
    }
  }

  lemma {:induction false} NoStatusIs(f: Floats, calls: seq<Call>, id: string, subject: string)
    requires f.Faithful() && Key(f, subject).Ok?
    requires forall i | 0 <= i < |calls| :: !SetsFor(f, calls[i], id, subject)
    ensures LastStatus(f, calls, id, Key(f, subject).value).None?
    decreases |calls|
  {
    if calls != [] {
      hide Key, SetsFor;
      LastStatusUnfolds(f, calls, id, subject);
      NoStatusIs(f, calls[..|calls| - 1], id, subject);
    }
  }

  /** Reading the status of a subject, in any spelling, during the life of a stream created by
      CreateStream: the status last set for that subject; if none was, the one last set for the whole
      stream, or enabled, with the subject asked about written into it. */
  lemma StatusIsTheLastOneSet(c: Setting, m: Store, calls: seq<Call>, id: string, subject: string)
    requires c.f.Faithful() && Key(c.f, subject).Ok?
    requires id in m.streams && m.streams[id].statuses == map["" := ENABLED] && Undisturbed(c, m, calls, id)
    ensures var got := GetStatus(c.f, Run(c, m, calls), id, subject);
      && (forall i: nat | IsLastFor(c.f, calls, id, subject, i) :: got == Ok(calls[i].req.value))
      && ((forall i | 0 <= i < |calls| :: !SetsFor(c.f, calls[i], id, subject)) ==>
            && (forall i: nat | IsLastFor(c.f, calls, id, "", i) :: got == Ok(calls[i].req.value.(subject := subject)))
            && ((forall i | 0 <= i < |calls| :: !SetsFor(c.f, calls[i], id, "")) ==>
                  got == Ok(ENABLED.(subject := subject))))
  {
    hide Lived, StatusLived, Run;
    var key := Key(c.f, subject).value;
    LifeOfAStream(c, m, calls, id);
    forall i: nat, u | (u == "" || u == subject) && IsLastFor(c.f, calls, id, u, i)
      ensures LastStatus(c.f, calls, id, Key(c.f, u).value) == calls[i].req
    {
      LastStatusIs(c.f, calls, id, u, i);
    }
    if forall i | 0 <= i < |calls| :: !SetsFor(c.f, calls[i], id, subject) {
      NoStatusIs(c.f, calls, id, subject);
      if forall i | 0 <= i < |calls| :: !SetsFor(c.f, calls[i], id, "") {
        NoStatusIs(c.f, calls, id, "");
      }
    }
    LivedStatus(c.f, calls, id, key, m.streams[id], Run(c, m, calls).streams[id]);
    LivedStatus(c.f, calls, id, "", m.streams[id], Run(c, m, calls).streams[id]);
    OnlyTheEmptySubjectIsTheWholeStream(c.f, subject);
    forall i: nat | IsLastFor(c.f, calls, id, "", i)
      ensures calls[i].req.value.subject == ""
    {
    }
  }

  lemma LivedStatus(
      f: Floats, calls: seq<Call>, id: string, key: string, start: Stream, now: Stream)
    requires Lived(f, calls, id, start, now)
    ensures var last := LastStatus(f, calls, id, key);
      && (key in now.statuses <==> key in start.statuses || last.Some?)
      && (key in now.statuses ==> now.statuses[key] == if last.Some? then last.value else start.statuses[key])
  {
    assert StatusLived(f, calls, id, key, start, now);
  }

  /** The call adds or removes a subject that is the given one, whatever its spelling. */
  ghost predicate Changes(f: Floats, call: Call, id: string, subject: string) {
    && (call.AddSubject? || call.RemoveSubject?) && call.id == id && call.subject.Some? && call.subject.value.Some?
    && SameSubject(f, call.subject.value.value, subject)
  }

  ghost predicate IsLastChange(f: Floats, calls: seq<Call>, id: string, subject: string, i: nat) {
    && i < |calls| && Changes(f, calls[i], id, subject)
    && forall j | i < j < |calls| :: !Changes(f, calls[j], id, subject)
  }

  /** The JSON text behind the argument of HasSubject. */
  function TextOf(subject: AnySubject): Option<string> {
    match subject
    case Nil => None
    case Raw(bytes) => Some(bytes)
    case Typed(encoding) => if encoding.Some? then Some(encoding.value) else None
  }

  lemma LastMembershipUnfolds(f: Floats, calls: seq<Call>, id: string, subject: string)
    requires f.Faithful() && Key(f, subject).Ok? && calls != []
    ensures var last := calls[|calls| - 1]; var key := Key(f, subject).value;
      LastMembership(f, calls, id, key) ==
      if Changes(f, last, id, subject) then Some(last.AddSubject?) else LastMembership(f, calls[..|calls| - 1], id, key)
  {
    hide Key, SameSubject;
    var last := calls[|calls| - 1];
    if (last.AddSubject? || last.RemoveSubject?) && last.subject.Some? && last.subject.value.Some? {
      SameSubjectIsSameKey(f, last.subject.value.value, subject);
    }
  }

  lemma {:induction false} LastMembershipIs(f: Floats, calls: seq<Call>, id: string, subject: string, i: nat)
    requires f.Faithful() && Key(f, subject).Ok? && IsLastChange(f, calls, id, subject, i)
    ensures LastMembership(f, calls, id, Key(f, subject).value) == Some(calls[i].AddSubject?)
    decreases |calls|
  {
    hide Key, Changes, LastMembership;
    LastMembershipUnfolds(f, calls, id, subject);
    var init := calls[..|calls| - 1];
    if i < |init| {
      assert !Changes(f, calls[|init|], id, subject);
      assert forall j | 0 <= j < |init| :: init[j] == calls[j];
      LastMembershipIs(f, init, id, subject, i);
    }
  }

  lemma {:induction false} NoMembershipIs(f: Floats, calls: seq<Call>, id: string, subject: string)
    requires f.Faithful() && Key(f, subject).Ok?
    requires forall i | 0 <= i < |calls| :: !Changes(f, calls[i], id, subject)
    ensures LastMembership(f, calls, id, Key(f, subject).value).None?
    decreases |calls|
  {
    if calls != [] {
      hide Key, Changes;
      LastMembershipUnfolds(f, calls, id, subject);
      NoMembershipIs(f, calls[..|calls| - 1], id, subject);
    }
  }

  /** Asking for a subject, in any spelling and by any of the shapes HasSubject takes, during the life
      of a stream that began without subjects: it is a member exactly when the last call that added or
      removed that subject added it. The empty subject is never a member. */
  lemma MembershipIsTheLastChange(
      c: Setting, m: Store, calls: seq<Call>, id: string, subject: AnySubject)
    requires c.f.Faithful() && KeyOfAny(c.f, subject).Ok?
    requires id in m.streams && m.streams[id].subjects == {} && Undisturbed(c, m, calls, id)
    ensures TextOf(subject).Some?
    ensures var got := HasSubject(c.f, Run(c, m, calls), id, subject); var text := TextOf(subject).value;
      && (forall i: nat | IsLastChange(c.f, calls, id, text, i) :: got == Ok(calls[i].AddSubject?))
      && ((forall i | 0 <= i < |calls| :: !Changes(c.f, calls[i], id, text)) ==> got == Ok(false))
      && (text == "" ==> got == Ok(false))
  {
    hide Run, Key, LastMembership, SameSubject;
    var text := TextOf(subject).value;
    var key := KeyOfAny(c.f, subject).value;
    LifeOfAStream(c, m, calls, id);
    assert MembershipLived(c.f, calls, id, key, m.streams[id], Run(c, m, calls).streams[id]);
    forall i: nat | IsLastChange(c.f, calls, id, text, i)
      ensures LastMembership(c.f, calls, id, key) == Some(calls[i].AddSubject?)
    {
      LastMembershipIs(c.f, calls, id, text, i);
    }
    if text == "" {
      NothingIsEmpty(c.f, calls, id);
    }
    if forall i | 0 <= i < |calls| :: !Changes(c.f, calls[i], id, text) {
      NoMembershipIs(c.f, calls, id, text);
    }
  }

  /** The encoding of an identifier is never empty. */
  lemma NothingIsEmpty(f: Floats, calls: seq<Call>, id: string)
    ensures forall i | 0 <= i < |calls| :: !Changes(f, calls[i], id, "")
  {
  }

  // ---------------------------------------------------------------- minted ids

  lemma MintInjective(idSeed: string, a: nat, b: nat)
    requires Mint(idSeed, a) == Mint(idSeed, b)
    ensures a == b
  {
    var prefix := "stream-" + idSeed + "-";
    assert Mint(idSeed, a)[|prefix|..] == Digits(a) && Mint(idSeed, b)[|prefix|..] == Digits(b);
    DigitsRoundTrip(a);
    DigitsRoundTrip(b);
  }

  /** A caller named the id in a CreateStream. */
  ghost predicate Supplied(calls: seq<Call>, id: string) {
    exists i :: 0 <= i < |calls| && calls[i].CreateStream? && calls[i].cfg.Some? && calls[i].cfg.value.streamID == id
  }

  ghost predicate Minted(idSeed: string, m: Store, id: string) {
    exists n: nat :: 1 <= n <= m.minted && id == Mint(idSeed, n)
  }

  lemma {:induction false} SuppliedOrMinted(c: Setting, calls: seq<Call>, id: string)
    requires id in Run(c, EMPTY, calls).streams
    ensures Supplied(calls, id) || Minted(c.idSeed, Run(c, EMPTY, calls), id)
    decreases |calls|
  {
    hide Key, Mint;
    if calls != [] {
      var init, last := calls[..|calls| - 1], calls[|calls| - 1];
      var m := Run(c, EMPTY, init);
      if id in m.streams {
        SuppliedOrMinted(c, init, id);
        if Supplied(init, id) {
          var i :| 0 <= i < |init| && init[i].CreateStream? && init[i].cfg.Some? && init[i].cfg.value.streamID == id;
          assert calls[i] == init[i];
        }
      } else {
        assert last.CreateStream? && last.cfg.Some? && IdFor(c.idSeed, m, last.cfg.value) == id;
        if last.cfg.value.streamID != "" {
          assert calls[|calls| - 1].cfg.value.streamID == id;
        }
      }
    }
  }

  /** After any run, a create overwrites a live stream only under an id of the minted form that a
      caller supplied before the store came to mint it. So while callers supply no such id, no create
      ever overwrites a stream. */
  lemma OverwrittenIdsWereSupplied(c: Setting, calls: seq<Call>, cfg: Config)
    ensures var m := Run(c, EMPTY, calls); var id := IdFor(c.idSeed, m, cfg);
      id in m.streams && Create(c.idSeed, m, Some(cfg)).1.Ok? ==>
        cfg.streamID == "" && id == Mint(c.idSeed, m.minted + 1) && Supplied(calls, id)
  {
    hide Run;
    var m := Run(c, EMPTY, calls);
    var id := IdFor(c.idSeed, m, cfg);
    if id in m.streams && Create(c.idSeed, m, Some(cfg)).1.Ok? {
      SuppliedOrMinted(c, calls, id);
      forall n: nat | id == Mint(c.idSeed, n)
        ensures n == m.minted + 1
      {
        MintInjective(c.idSeed, n, m.minted + 1);
      }
    }
  }

  function Repeat(call: Call, k: nat): (calls: seq<Call>)
    ensures |calls| == k
  {
    if k == 0 then [] else Repeat(call, k - 1) + [call]
  }

  lemma {:induction false} RepeatMints(c: Setting, m: Store, cfg: Config, k: nat)
    requires cfg.streamID == ""
    ensures Run(c, m, Repeat(CreateStream(Some(cfg)), k)).minted == m.minted + k
  {
    if k > 0 {
      RepeatMints(c, m, cfg, k - 1);
      var calls := Repeat(CreateStream(Some(cfg)), k);
      assert calls[..|calls| - 1] == Repeat(CreateStream(Some(cfg)), k - 1);
    }
  }

  /** Exactly which live streams are overwritten if callers keep creating streams without an id: those
      whose id is one the store has yet to mint. */
  lemma OverwrittenIff(c: Setting, m: Store, cfg: Config, id: string)
    requires cfg.streamID == "" && id in m.streams
    ensures (exists k: nat {:trigger Repeat(CreateStream(Some(cfg)), k)} ::
               Replaces(c, Run(c, m, Repeat(CreateStream(Some(cfg)), k)), CreateStream(Some(cfg)), id))
            <==> exists n: nat :: n > m.minted && id == Mint(c.idSeed, n)
  {
    hide Mint, Run, Repeat;
    forall k: nat
      ensures Run(c, m, Repeat(CreateStream(Some(cfg)), k)).minted == m.minted + k
    {
      RepeatMints(c, m, cfg, k);
    }
    if n: nat :| n > m.minted && id == Mint(c.idSeed, n) {
      var k: nat := n - m.minted - 1;
      assert Replaces(c, Run(c, m, Repeat(CreateStream(Some(cfg)), k)), CreateStream(Some(cfg)), id);
    }
  }

  /** The corner itself: a caller supplies the first id the store would mint, queues a SET, and the
      next create without an id discards the stream with its queue. */
  lemma SuppliedIdIsOverwritten(c: Setting, mine: Config, other: Config)
    requires mine.streamID == Mint(c.idSeed, 1) && other.streamID == ""
    ensures var calls := [CreateStream(Some(mine)), EnqueueSET(mine.streamID, "jws"), CreateStream(Some(other))];
      && mine.streamID in Run(c, EMPTY, calls[..2]).streams && mine.streamID in Run(c, EMPTY, calls).streams
      && Run(c, EMPTY, calls[..2]).streams[mine.streamID].queue == ["jws"]
      && Run(c, EMPTY, calls).streams[mine.streamID] ==
         Stream(other.(streamID := mine.streamID), map["" := ENABLED], {}, [])
  {
    hide Digits;
    var calls := [CreateStream(Some(mine)), EnqueueSET(mine.streamID, "jws"), CreateStream(Some(other))];
    assert calls[..2][..1] == calls[..1] && calls[..1][..0] == [];
    assert Mint(c.idSeed, 1) != "";
    var m0 := Run(c, EMPTY, calls[..1][..0]);
    assert m0 == EMPTY;
    var m1 := After(c, m0, calls[0]);
    assert Run(c, EMPTY, calls[..1]) == m1;
    var m2 := After(c, m1, calls[1]);
    assert Run(c, EMPTY, calls[..2]) == m2;
    assert Run(c, EMPTY, calls) == After(c, m2, calls[2]);
  }
}
