/** memstore/memstore.go on the heap: the store and the objects its callers pass in and get back. */
module MemoryStore {
  import opened Wrappers
  import opened SubjectKeys
  import opened StoreModel

  ghost function Ref<T>(a: array?<T>): set<object> {
    if a == null then {} else {a}
  }

  ghost function Text(a: array?<char>): string
    reads Ref(a)
  {
    if a == null then "" else a[..]
  }

  ghost function List(a: array?<string>): Option<seq<string>>
    reads Ref(a)
  {
    if a == null then None else Some(a[..])
  }

  class StreamConfig {
    var streamID: string
    var iss: string
    var aud: array?<char>
    var supported: array?<string>
    var requested: array?<string>
    var delivered: array?<string>
    var delivery: Delivery
    var minVerificationInterval: int
    var format: string

    constructor (streamID: string, iss: string, aud: array?<char>, supported: array?<string>,
                 requested: array?<string>, delivered: array?<string>, delivery: Delivery,
                 minVerificationInterval: int, format: string)
      ensures this.streamID == streamID && this.iss == iss && this.aud == aud && this.supported == supported
      ensures this.requested == requested && this.delivered == delivered && this.delivery == delivery
      ensures this.minVerificationInterval == minVerificationInterval && this.format == format
      ensures View() == Config(streamID, iss, Text(aud), List(supported), List(requested), List(delivered), delivery,
                               minVerificationInterval, format)
    {
      this.streamID, this.iss, this.aud, this.supported := streamID, iss, aud, supported;
      this.requested, this.delivered, this.delivery := requested, delivered, delivery;
      this.minVerificationInterval, this.format := minVerificationInterval, format;
    }

    /** The mutable objects of the configuration, apart from the bytes of an unknown delivery. */
    ghost function Owned(): set<object>
      reads this
    {
      {this} + Ref(aud) + Ref(supported) + Ref(requested) + Ref(delivered)
    }

    /** Everything mutable that can be reached from the configuration. */
    ghost function Reach(): set<object>
      reads this
    {
      Owned() + if delivery.Known() then {} else {delivery.unknown.raw}
    }

    ghost function View(): Config
      reads this, Owned()
    {
      Config(streamID, iss, Text(aud), List(supported), List(requested), List(delivered), delivery,
             minVerificationInterval, format)
    }
  }

  class StatusResponse {
    var status: string
    var reason: string
    var subject: array?<char>

    constructor (status: string, reason: string, subject: array?<char>)
      ensures this.status == status && this.reason == reason && this.subject == subject
    {
      this.status, this.reason, this.subject := status, reason, subject;
    }

    ghost function Owned(): set<object>
      reads this
    {
      {this} + Ref(subject)
    }

    ghost function View(): Status
      reads this, Owned()
    {
      Status(status, reason, Text(subject))
    }
  }

  /** cloneRaw: an empty slice becomes nil. */
  method CloneRaw(raw: array?<char>) returns (out: array?<char>)
    ensures fresh(Ref(out)) && Text(out) == Text(raw)
    ensures out == null <==> Text(raw) == ""
  {
    if raw == null || raw.Length == 0 {
      return null;
    }
    var copy := new char[raw.Length](i requires 0 <= i < raw.Length reads raw => raw[i]);
    assert copy[..] == raw[..];
    out := copy;
  }

  /** cloneStrings: an empty slice stays empty. */
  method CloneStrings(list: array?<string>) returns (out: array?<string>)
    ensures fresh(Ref(out)) && List(out) == List(list)
  {
    if list == null {
      return null;
    }
    var copy := new string[list.Length](i requires 0 <= i < list.Length reads list => list[i]);
    assert copy[..] == list[..];
    out := copy;
  }

  twostate lemma NewIsApart(new s: set<object>, t: set<object>)
    requires fresh(s)
    ensures s !! t
  {
  }

  lemma CarrierIsShared(a: StreamConfig, b: StreamConfig)
    requires a.delivery == b.delivery && a.Owned() !! b.Reach()
    ensures a.Reach() !! b.Reach() <==> b.delivery.Known()
  {
    if !b.delivery.Known() {
      assert b.delivery.unknown.raw in a.Reach() * b.Reach();
    }
  }

  /** cloneStreamConfig: everything but the carrier of an unknown delivery is copied. */
  method CloneStreamConfig(cfg: StreamConfig) returns (out: StreamConfig)
    ensures fresh(out.Owned()) && out.View() == old(cfg.View())
    ensures out.Reach() !! cfg.Reach() <==> cfg.delivery.Known()
  {
    ghost var view, reach := cfg.View(), cfg.Reach();
    var aud := CloneRaw(cfg.aud);
    var supported := CloneStrings(cfg.supported);
    var requested := CloneStrings(cfg.requested);
    var delivered := CloneStrings(cfg.delivered);
    out := new StreamConfig(cfg.streamID, cfg.iss, aud, supported, requested, delivered, cfg.delivery,
                            cfg.minVerificationInterval, cfg.format);
    assert out.View() == view;
    NewIsApart(out.Owned(), reach);
    CarrierIsShared(out, cfg);
  }

  /** The objects of a new stream. */
  method NewStream(cfg: StreamConfig, id: string) returns (stored: StreamConfig, enabled: StatusResponse)
    ensures fresh(stored.Owned()) && stored.streamID == id && stored.View() == old(cfg.View()).(streamID := id)
    ensures fresh(enabled.Owned()) && enabled.View() == ENABLED
  {
    enabled := new StatusResponse("enabled", "", null);
    SameConfig(cfg);
    stored := CloneUnder(cfg, id);
  }

  /** A clone that is then given the id. */
  method CloneUnder(cfg: StreamConfig, id: string) returns (stored: StreamConfig)
    ensures fresh(stored.Owned()) && stored in stored.Owned() && stored.streamID == id
    ensures stored.View() == old(cfg.View()).(streamID := id)
  {
    stored := CloneStreamConfig(cfg);
    stored.streamID := id;
  }

  method NewStatusResponse(status: string, reason: string, subject: array?<char>) returns (out: StatusResponse)
    ensures fresh(out) && out.Owned() == {out} + Ref(subject)
    ensures out.View() == Status(status, reason, old(Text(subject)))
  {
    out := new StatusResponse(status, reason, subject);
  }

  method CloneStatusResponse(resp: StatusResponse) returns (out: StatusResponse)
    ensures fresh(out.Owned()) && out.View() == old(resp.View())
  {
    var subject := CloneRaw(resp.subject);
    out := new StatusResponse(resp.status, resp.reason, subject);
  }

  twostate lemma SameConfig(cfg: StreamConfig)
    requires unchanged(old(cfg.Owned()))
    ensures cfg.Owned() == old(cfg.Owned()) && cfg.View() == old(cfg.View())
  {
  }

  twostate lemma SameStatus(resp: StatusResponse)
    requires unchanged(old(resp.Owned()))
    ensures resp.Owned() == old(resp.Owned()) && resp.View() == old(resp.View())
  {
  }

  class StatusUpdateRequest {
    var status: string
    var reason: string
    var subject: array?<char>

    constructor (status: string, reason: string, subject: array?<char>)
      ensures this.status == status && this.reason == reason && this.subject == subject
    {
      this.status, this.reason, this.subject := status, reason, subject;
    }

    ghost function Owned(): set<object>
      reads this
    {
      {this} + Ref(subject)
    }

    ghost function View(): Status
      reads this, Owned()
    {
      Status(status, reason, Text(subject))
    }
  }

  method Bytes(raw: array?<char>) returns (t: string)
    ensures t == Text(raw)
  {
    if raw == null {
      return "";
    }
    t := raw[..];
  }

  ghost predicate Shows(cfg: StreamConfig, view: Config)
    reads cfg, cfg.Owned()
  {
    cfg.View() == view
  }

  /** Copies with the given values, whose objects are all in `objects`. */
  ghost predicate Listing(out: seq<StreamConfig>, views: seq<Config>, objects: set<object>)
    reads out, objects
  {
    && |out| == |views|
    && forall i | 0 <= i < |out| :: out[i].Owned() <= objects && Shows(out[i], views[i])
  }

  lemma PrefixGrows<T>(s: seq<T>, k: nat)
    requires k < |s|
    ensures s[..k + 1] == s[..k] + [s[k]]
  {
  }

  lemma PrefixEnds<T>(s: seq<T>)
    ensures s[..0] == [] && s[..|s|] == s
  {
  }

  lemma EmptyListing()
    ensures Listing([], [], {})
  {
  }

  lemma ListingGrows(out: seq<StreamConfig>, views: seq<Config>, objects: set<object>, c: StreamConfig, v: Config)
    requires Listing(out, views, objects) && Shows(c, v)
    ensures Listing(out + [c], views + [v], objects + c.Owned())
  {
    hide StreamConfig.Owned, StreamConfig.View, Shows;
  }

  /** The pair a Go method returns: a value or an error. */
  ghost predicate Returns(out: StreamConfig?, err: Option<Error>, r: Result<Config, Error>)
    reads if out == null then {} else {out} + out.Owned()
  {
    match r
    case Ok(view) => err.None? && out != null && out.View() == view
    case Err(e) => err == Some(e) && out == null
  }

  ghost predicate OwnsConfig(store: object, repr: set<object>, id: string, cfg: StreamConfig, view: Config)
    reads cfg, cfg.Owned()
  {
    && cfg in repr && cfg != store && cfg.Owned() <= repr && store !in cfg.Owned()
    && cfg.View() == view && cfg.streamID == id
  }

  ghost predicate OwnsStatus(store: object, repr: set<object>, resp: StatusResponse, view: Status)
    reads resp, resp.Owned()
  {
    resp in repr && resp != store && resp.Owned() <= repr && store !in resp.Owned() && resp.View() == view
  }

  ghost predicate OwnsBucket(store: object, repr: set<object>, bucket: map<string, StatusResponse>,
                             views: map<string, Status>)
    reads set key | key in bucket :: bucket[key]
    reads set key, o | key in bucket && o in bucket[key].Owned() :: o
  {
    && (forall key :: key in bucket <==> key in views)
    && forall key | key in bucket :: OwnsStatus(store, repr, bucket[key], views[key])
  }

  /** What is written for one stream, by object and by value. */
  datatype Written = Written(repr: set<object>, id: string, cfg: StreamConfig, bucket: map<string, StatusResponse>,
                             st: Stream)

  ghost predicate OwnsWritten(store: object, w: Written)
    reads w.cfg, w.cfg.Owned()
    reads set key | key in w.bucket :: w.bucket[key]
    reads set key, o | key in w.bucket && o in w.bucket[key].Owned() :: o
  {
    OwnsConfig(store, w.repr, w.id, w.cfg, w.st.config) && OwnsBucket(store, w.repr, w.bucket, w.st.statuses)
  }

  lemma OwnsNew(store: object, repr: set<object>, cfg: StreamConfig, view: Config, resp: StatusResponse, key: string)
    requires cfg.Owned() <= repr && store !in cfg.Owned() && cfg.View() == view
    requires resp.Owned() <= repr && store !in resp.Owned()
    ensures OwnsConfig(store, repr, cfg.streamID, cfg, view)
    ensures OwnsBucket(store, repr, map[key := resp], map[key := resp.View()])
  {
  }

  /** A copy of a status with the subject replaced by a copy of another. */
  method Inherit(resp: StatusResponse, subject: array?<char>) returns (out: StatusResponse)
    ensures fresh(out.Owned()) && out.View() == old(resp.View()).(subject := old(Text(subject)))
  {
    out := CloneStatusResponse(resp);
    out.subject := CloneRaw(subject);
  }

  method FromRequest(req: StatusUpdateRequest) returns (out: StatusResponse)
    ensures fresh(out.Owned()) && out in out.Owned() && out.View() == old(req.View())
  {
    var subject := CloneRaw(req.subject);
    out := NewStatusResponse(req.status, req.reason, subject);
  }

  ghost predicate ReturnsStatus(out: StatusResponse?, err: Option<Error>, r: Result<Status, Error>)
    reads if out == null then {} else {out} + out.Owned()
  {
    match r
    case Ok(view) => err.None? && out != null && out.View() == view
    case Err(e) => err == Some(e) && out == null
  }

  lemma BucketWith(
      store: object, repr: set<object>, bucket: map<string, StatusResponse>, views: map<string, Status>,
      key: string, resp: StatusResponse, view: Status)
    requires OwnsBucket(store, repr, bucket, views) && OwnsStatus(store, repr, resp, view)
    ensures OwnsBucket(store, repr, bucket[key := resp], views[key := view])
  {
    hide OwnsStatus;
  }

  lemma CreateFails(idSeed: string, m: Store, cfg: Option<Config>)
    ensures cfg.None? || (cfg.value.streamID != "" && cfg.value.streamID in m.streams) ==>
              Create(idSeed, m, cfg) == (m, Err(InvalidConfig))
  {
  }

  lemma CreateSucceeds(idSeed: string, m: Store, cfg: Config, id: string, n: nat)
    requires if cfg.streamID == "" then n == m.minted + 1 && id == Mint(idSeed, n)
             else n == m.minted && id == cfg.streamID && id !in m.streams
    ensures var stored := cfg.(streamID := id);
      Create(idSeed, m, Some(cfg)) ==
      (Store(m.streams[id := Stream(stored, map["" := ENABLED], {}, [])], n), Ok(stored))
  {
  }

  class InMemoryStore {
    const setting: Setting
    var streams: map<string, StreamConfig>
    var statuses: map<string, map<string, StatusResponse>>
    var subjects: map<string, set<string>>
    var queues: map<string, seq<string>>
    var nextID: nat

    /** The streams by value. */
    ghost var model: map<string, Stream>

    /** Every mutable object of the store, and perhaps some it has let go. */
    ghost var Repr: set<object>

    /** The objects behind one stream are the store's own and add up to its value. */
    ghost predicate Holds(id: string)
      reads `streams, `statuses, `subjects, `queues, `model, `Repr, Repr - {this}
    {
      && id in streams && id in statuses && id in subjects && id in queues && id in model
      && streams[id] in Repr && streams[id].Owned() <= Repr && this !in streams[id].Owned()
      && OwnsConfig(this, Repr, id, streams[id], model[id].config)
      && (forall key | key in statuses[id] ::
            statuses[id][key] in Repr && statuses[id][key].Owned() <= Repr && this !in statuses[id][key].Owned())
      && OwnsBucket(this, Repr, statuses[id], model[id].statuses)
      && subjects[id] == model[id].subjects && queues[id] == model[id].queue
    }

    ghost predicate Valid()
      reads `streams, `statuses, `subjects, `queues, `model, `Repr, Repr - {this}
    {
      && this in Repr && streams.Keys == model.Keys
      && statuses.Keys == streams.Keys && subjects.Keys == streams.Keys && queues.Keys == streams.Keys
      && forall id {:trigger Holds(id)} | id in streams :: Holds(id)
    }

    /** A stream whose entries were not replaced is what it was. */
    twostate lemma Keeps(id: string)
      requires old(Holds(id)) && old(Repr) <= Repr
      requires forall o | o in old(Repr) && o != this :: unchanged(o)
      requires id in streams && id in statuses && id in subjects && id in queues && id in model
      requires streams[id] == old(streams[id]) && statuses[id] == old(statuses[id])
      requires subjects[id] == old(subjects[id]) && queues[id] == old(queues[id])
      requires model[id] == old(model[id])
      ensures Holds(id)
    {
      SameConfig(streams[id]);
      forall key | key in statuses[id]
        ensures OwnsStatus(this, Repr, statuses[id][key], model[id].statuses[key])
      {
        SameStatus(statuses[id][key]);
      }
    }

    lemma HoldsNow(id: string, cfg: StreamConfig, bucket: map<string, StatusResponse>)
      requires id in streams && id in statuses && id in subjects && id in queues && id in model
      requires streams[id] == cfg && statuses[id] == bucket
      requires OwnsConfig(this, Repr, id, cfg, model[id].config)
      requires OwnsBucket(this, Repr, bucket, model[id].statuses)
      requires subjects[id] == model[id].subjects && queues[id] == model[id].queue
      ensures Holds(id)
    {
    }

    /** Replacing the entries of one stream in the four maps, and its value, keeps the store valid. */
    twostate lemma StillValid(id: string, new cfg: StreamConfig, new bucket: map<string, StatusResponse>,
                                                 new members: set<string>, new queue: seq<string>, new st: Stream)
      requires old(Valid()) && old(Repr) <= Repr
      requires forall o | o in old(Repr) && o != this :: unchanged(o)
      requires streams == old(streams)[id := cfg] && statuses == old(statuses)[id := bucket]
      requires subjects == old(subjects)[id := members] && queues == old(queues)[id := queue]
      requires model == old(model)[id := st]
      requires Holds(id)
      ensures Valid()
    {
      hide Holds;
      forall i | i in streams
        ensures Holds(i)
      {
        if i != id {
          assert old(Holds(i));
          Keeps(i);
        }
      }
    }

    twostate lemma StillValidWithout(id: string)
      requires old(Valid()) && old(Repr) <= Repr
      requires forall o | o in old(Repr) && o != this :: unchanged(o)
      requires streams == old(streams) - {id} && statuses == old(statuses) - {id}
      requires subjects == old(subjects) - {id} && queues == old(queues) - {id}
      requires model == old(model) - {id}
      ensures Valid()
    {
      hide Holds;
      forall i | i in streams
        ensures Holds(i)
      {
        assert old(Holds(i));
        Keeps(i);
      }
    }

    /** The store by value. */
    ghost function Model(): Store
      reads this
    {
      Store(model, nextID)
    }

    constructor (setting: Setting)
      ensures Valid() && fresh(Repr) && this.setting == setting
      ensures Model() == EMPTY
    {
      this.setting := setting;
      streams, statuses, subjects, queues, nextID := map[], map[], map[], map[], 0;
      model := map[];
      Repr := {this};
    }

    twostate lemma OwnedStays(w: Written)
      requires old(OwnsWritten(this, w))
      requires forall o | o in w.repr && o != this :: unchanged(o)
      ensures OwnsWritten(this, w)
    {
      SameConfig(w.cfg);
      forall key | key in w.bucket
        ensures OwnsStatus(this, w.repr, w.bucket[key], w.st.statuses[key])
      {
        SameStatus(w.bucket[key]);
      }
    }

    /** Writes the entries of `id` in the four maps. */
    method Put(id: string, cfg: StreamConfig, bucket: map<string, StatusResponse>, members: set<string>,
               queue: seq<string>, ghost st: Stream, ghost parts: set<object>)
      requires Valid() && this !in parts
      requires OwnsConfig(this, Repr + parts, id, cfg, st.config)
      requires OwnsBucket(this, Repr + parts, bucket, st.statuses)
      requires members == st.subjects && queue == st.queue
      modifies this
      ensures Valid() && Repr == old(Repr) + parts && nextID == old(nextID)
      ensures model == old(model)[id := st] && streams == old(streams)[id := cfg]
      ensures OwnsConfig(this, Repr, id, cfg, st.config)
    {
      hide Holds, OwnsConfig, OwnsBucket, StreamConfig.Owned, StatusResponse.Owned, StreamConfig.View,
           StatusResponse.View;
      ghost var w := Written(Repr + parts, id, cfg, bucket, st);
      streams := streams[id := cfg];
      statuses := statuses[id := bucket];
      subjects := subjects[id := members];
      queues := queues[id := queue];
      model := model[id := st];
      Repr := Repr + parts;
      OwnedStays(w);
      HoldsNow(id, cfg, bucket);
      StillValid(id, cfg, bucket, members, queue, st);
    }

    /** Stores a copy of `cfg` as a new stream. */
    method Admit(id: string, cfg: StreamConfig) returns (stored: StreamConfig)
      requires Valid()
      modifies this
      ensures Valid() && old(Repr) <= Repr && fresh(Repr - old(Repr)) && nextID == old(nextID)
      ensures model == old(model)[id := Stream(old(cfg.View()).(streamID := id), map["" := ENABLED], {}, [])]
      ensures OwnsConfig(this, Repr, id, stored, old(cfg.View()).(streamID := id))
    {
      hide StreamConfig.Owned, StreamConfig.View, StatusResponse.Owned, StatusResponse.View, Holds, OwnsConfig,
           OwnsBucket;
      ghost var st := Stream(cfg.View().(streamID := id), map["" := ENABLED], {}, []);
      var enabled;
      stored, enabled := NewStream(cfg, id);
      ghost var parts := stored.Owned() + enabled.Owned();
      OwnsNew(this, Repr + parts, stored, st.config, enabled, "");
      Put(id, stored, map["" := enabled], {}, [], st, parts);
    }

    method CreateStream(cfg: StreamConfig?) returns (out: StreamConfig?, err: Option<Error>)
      requires Valid()
      modifies this
      ensures Valid() && old(Repr) <= Repr && fresh(Repr - old(Repr))
      ensures var (m, r) := Create(setting.idSeed, old(Model()), if cfg == null then None else Some(old(cfg.View())));
              Model() == m && Returns(out, err, r)
      ensures out != null ==> fresh(out.Owned()) && out.Owned() !! Repr
    {
      hide Create, Mint, StreamConfig.Owned, Holds;
      ghost var was, arg := Model(), if cfg == null then None else Some(cfg.View());
      CreateFails(setting.idSeed, was, arg);
      if cfg == null {
        return null, Some(InvalidConfig);
      }
      var id := cfg.streamID;
      if id == "" {
        nextID := nextID + 1;
        id := Mint(setting.idSeed, nextID);
      } else if id in streams {
        return null, Some(InvalidConfig);
      }
      assert cfg.View() == arg.value;
      CreateSucceeds(setting.idSeed, was, arg.value, id, nextID);
      var stored := Admit(id, cfg);
      out := CloneStreamConfig(stored);
      err := None;
    }

    method GetStream(id: string) returns (out: StreamConfig?, err: Option<Error>)
      requires Valid()
      ensures Returns(out, err, Get(Model(), id))
      ensures out != null ==> fresh(out.Owned())
    {
      if id !in streams {
        return null, Some(StreamNotFound);
      }
      out := CopyOf(id);
      err := None;
    }

    method CopyOf(id: string) returns (out: StreamConfig)
      requires Valid() && id in streams
      ensures id in model && Shows(out, model[id].config) && fresh(out.Owned())
    {
      assert Holds(id);
      out := CloneStreamConfig(streams[id]);
    }

    lemma ListedIds()
      requires Valid()
      ensures var ids, views := SortedKeys(streams.Keys), ListAll(Model());
        && |ids| == |views|
        && forall i | 0 <= i < |ids| :: ids[i] in streams && ids[i] in model && views[i] == model[ids[i]].config
    {
      hide SortedKeys, Holds;
    }

    /** Every stream, in the order of the ids. */
    method ListStreams() returns (out: seq<StreamConfig>, ghost objects: set<object>)
      requires Valid()
      ensures Listing(out, ListAll(Model()), objects) && fresh(objects)
    {
      hide SortedKeys, ListAll, Valid, StreamConfig.Owned, StreamConfig.View, Shows, Listing;
      var ids := SortedKeys(streams.Keys);
      ghost var views := ListAll(Model());
      ListedIds();
      PrefixEnds(views);
      out, objects := [], {};
      EmptyListing();
      for k := 0 to |ids|
        invariant Listing(out, views[..k], objects) && fresh(objects)
      {
        var copy := CopyOf(ids[k]);
        ListingGrows(out, views[..k], objects, copy, views[k]);
        PrefixGrows(views, k);
        out, objects := out + [copy], objects + copy.Owned();
      }
    }

    method UpdateStream(cfg: StreamConfig?) returns (out: StreamConfig?, err: Option<Error>)
      requires Valid()
      modifies this
      ensures Valid() && old(Repr) <= Repr && fresh(Repr - old(Repr))
      ensures var (m, r) := Update(old(Model()), if cfg == null then None else Some(old(cfg.View())));
              Model() == m && Returns(out, err, r)
      ensures out != null ==> fresh(out.Owned()) && out.Owned() !! Repr
    {
      if cfg == null {
        return null, Some(InvalidConfig);
      }
      if cfg.streamID !in streams {
        return null, Some(StreamNotFound);
      }
      var stored := Replace(cfg);
      out := CloneStreamConfig(stored);
      err := None;
    }

    /** Stores a copy of `cfg` in place of the present configuration. */
    method Replace(cfg: StreamConfig) returns (stored: StreamConfig)
      requires Valid() && cfg.streamID in streams
      modifies this
      ensures Valid() && old(Repr) <= Repr && fresh(Repr - old(Repr)) && nextID == old(nextID)
      ensures var view := old(cfg.View());
        model == old(model)[view.streamID := old(model)[view.streamID].(config := view)]
      ensures OwnsConfig(this, Repr, stored.streamID, stored, old(cfg.View()))
    {
      var id := cfg.streamID;
      assert Holds(id) && cfg.View().streamID == id;
      ghost var st := model[id].(config := cfg.View());
      stored := CloneUnder(cfg, id);
      ghost var parts := stored.Owned();
      HoldsWith(id, parts);
      assert OwnsConfig(this, Repr + parts, id, stored, st.config);
      hide StreamConfig.Owned, StreamConfig.View, StatusResponse.Owned, StatusResponse.View, Holds;
      Put(id, stored, statuses[id], subjects[id], queues[id], st, parts);
    }

    method DeleteStream(id: string)
      requires Valid()
      modifies this
      ensures Valid() && Repr == old(Repr)
      ensures Model() == Delete(old(Model()), id)
    {
      streams := streams - {id};
      statuses := statuses - {id};
      subjects := subjects - {id};
      queues := queues - {id};
      model := model - {id};
      StillValidWithout(id);
    }

    method GetStreamStatus(id: string, subject: array?<char>) returns (out: StatusResponse?, err: Option<Error>)
      requires Valid()
      ensures ReturnsStatus(out, err, GetStatus(setting.f, Model(), id, old(Text(subject))))
      ensures out != null ==> fresh(out.Owned())
    {
      if id !in statuses {
        return null, Some(StreamNotFound);
      }
      assert Holds(id);
      var text := Bytes(subject);
      var key := Key(setting.f, text);
      if key.Err? {
        return null, Some(key.error);
      }
      var bucket := statuses[id];
      err := None;
      if key.value in bucket {
        out := CloneStatusResponse(bucket[key.value]);
      } else if "" in bucket {
        out := Inherit(bucket[""], subject);
      } else {
        var copy := CloneRaw(subject);
        out := NewStatusResponse("enabled", "", copy);
      }
    }

    method SetStreamStatus(id: string, req: StatusUpdateRequest?) returns (out: StatusResponse?, err: Option<Error>)
      requires Valid()
      modifies this
      ensures Valid() && old(Repr) <= Repr && fresh(Repr - old(Repr))
      ensures var (m, r) := SetStatus(setting.f, old(Model()), id, if req == null then None else Some(old(req.View())));
              Model() == m && ReturnsStatus(out, err, r)
      ensures out != null ==> fresh(out.Owned()) && out.Owned() !! Repr
    {
      if req == null {
        return null, Some(InvalidConfig);
      }
      if id !in statuses {
        return null, Some(StreamNotFound);
      }
      var text := Bytes(req.subject);
      var key := Key(setting.f, text);
      if key.Err? {
        return null, Some(key.error);
      }
      var resp := Record(id, key.value, req);
      out := CloneStatusResponse(resp);
      err := None;
    }

    lemma HoldsWith(id: string, parts: set<object>)
      requires Holds(id)
      ensures OwnsConfig(this, Repr + parts, id, streams[id], model[id].config)
      ensures OwnsBucket(this, Repr + parts, statuses[id], model[id].statuses)
    {
      hide StreamConfig.Owned, StatusResponse.Owned, StreamConfig.View, StatusResponse.View;
    }

    /** Files a copy of the request as the status under the key. */
    method Record(id: string, key: string, req: StatusUpdateRequest) returns (resp: StatusResponse)
      requires Valid() && id in streams
      modifies this
      ensures Valid() && old(Repr) <= Repr && fresh(Repr - old(Repr)) && nextID == old(nextID)
      ensures var st := old(model)[id]; model == old(model)[id := st.(statuses := st.statuses[key := old(req.View())])]
      ensures OwnsStatus(this, Repr, resp, old(req.View()))
    {
      assert Holds(id);
      ghost var view, st := req.View(), model[id];
      resp := FromRequest(req);
      ghost var parts := resp.Owned();
      HoldsWith(id, parts);
      assert OwnsStatus(this, Repr + parts, resp, view);
      BucketWith(this, Repr + parts, statuses[id], st.statuses, key, resp, view);
      hide StreamConfig.Owned, StreamConfig.View, StatusResponse.Owned, StatusResponse.View, StatusUpdateRequest.View,
           Holds, OwnsBucket, OwnsConfig, OwnsStatus;
      Put(id, streams[id], statuses[id][key := resp], subjects[id], queues[id],
          st.(statuses := st.statuses[key := view]), parts);
    }

    method AddSubject(id: string, req: Option<Option<Encoding>>) returns (err: Option<Error>)
      requires Valid()
      modifies this
      ensures Valid() && Repr == old(Repr)
      ensures (Model(), err) == SetMembership(setting.f, old(Model()), id, req, true)
    {
      if req.None? {
        return Some(InvalidConfig);
      }
      if id !in subjects {
        return Some(StreamNotFound);
      }
      var key := KeyOf(setting.f, req.value);
      if key.Err? {
        return Some(key.error);
      }
      assert Holds(id);
      Rewrite(id, subjects[id] + {key.value}, queues[id]);
      err := None;
    }

    method RemoveSubject(id: string, req: Option<Option<Encoding>>) returns (err: Option<Error>)
      requires Valid()
      modifies this
      ensures Valid() && Repr == old(Repr)
      ensures (Model(), err) == SetMembership(setting.f, old(Model()), id, req, false)
    {
      if req.None? {
        return Some(InvalidConfig);
      }
      if id !in subjects {
        return Some(StreamNotFound);
      }
      var key := KeyOf(setting.f, req.value);
      if key.Err? {
        return Some(key.error);
      }
      assert Holds(id);
      Rewrite(id, subjects[id] - {key.value}, queues[id]);
      err := None;
    }

    method EnqueueSET(id: string, jws: string) returns (err: Option<Error>)
      requires Valid()
      modifies this
      ensures Valid() && Repr == old(Repr)
      ensures (Model(), err) == Enqueue(old(Model()), id, jws)
    {
      if id !in streams {
        return Some(StreamNotFound);
      }
      assert Holds(id);
      Rewrite(id, subjects[id], queues[id] + [jws]);
      err := None;
    }

    /** Writes the member set and the queue of a stream. */
    method Rewrite(id: string, members: set<string>, queue: seq<string>)
      requires Valid() && id in streams
      modifies this
      ensures Valid() && Repr == old(Repr) && nextID == old(nextID)
      ensures model == old(model)[id := old(model)[id].(subjects := members, queue := queue)]
    {
      assert Holds(id);
      assert Repr + {} == Repr;
      Put(id, streams[id], statuses[id], members, queue, model[id].(subjects := members, queue := queue), {});
    }

    method Has(id: string, subject: AnySubject) returns (found: bool, err: Option<Error>)
      requires Valid()
      ensures match HasSubject(setting.f, Model(), id, subject)
              case Ok(b) => err.None? && found == b
              case Err(e) => err == Some(e) && !found
    {
      if id !in subjects {
        return false, Some(StreamNotFound);
      }
      var key := KeyOfAny(setting.f, subject);
      if key.Err? {
        return false, Some(key.error);
      }
      assert Holds(id);
      return key.value in subjects[id], None;
    }

    method QueuedSETs(id: string) returns (out: array?<string>, err: Option<Error>)
      requires Valid()
      ensures id in model ==> err.None? && out != null && fresh(out) && out[..] == model[id].queue
      ensures id !in model ==> err == Some(StreamNotFound) && out == null
    {
      if id !in streams {
        return null, Some(StreamNotFound);
      }
      assert Holds(id);
      var q := queues[id];
      out := new string[|q|](i requires 0 <= i < |q| => q[i]);
      err := None;
    }
  }
}
