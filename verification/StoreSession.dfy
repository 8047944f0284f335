/** What code outside memstore can do to a store over time: call it with objects of its own, keep the
    objects it gets back, and write to all of them whenever it likes. */
module StoreSession {
  import opened Wrappers
  import opened SubjectKeys
  import opened StoreModel
  import opened MemoryStore

  /** The fields of a configuration, with slices named by their position among those held. */
  datatype Fields = Fields(streamID: string, iss: string, aud: Option<nat>, supported: Option<nat>,
                           requested: Option<nat>, delivered: Option<nat>, uri: string, endpointURL: string,
                           authorizationHeader: string, unknown: Option<nat>, minVerificationInterval: int,
                           format: string)

  datatype Action =
    | NewChars(text: string)
    | NewStrings(list: seq<string>)
    | NewConfig(fields: Fields)
    | NewRequest(status: string, reason: string, subject: Option<nat>)
    | WriteChar(i: nat, k: nat, c: char)
    | WriteString(i: nat, k: nat, s: string)
    | WriteConfig(i: nat, fields: Fields)
    | WriteRequest(i: nat, status: string, reason: string, subject: Option<nat>)
    | WriteResponse(i: nat, status: string, reason: string, subject: Option<nat>)
    | TakeApart(i: nat) // keep the slices of a configuration
    | CallCreate(cfg: Option<nat>)
    | CallUpdate(cfg: Option<nat>)
    | CallGet(id: string)
    | CallList
    | CallDelete(id: string)
    | CallSetStatus(id: string, request: Option<nat>)
    | CallGetStatus(id: string, subject: Option<nat>)
    | CallAdd(id: string, member: Option<Option<Encoding>>)
    | CallRemove(id: string, member: Option<Option<Encoding>>)
    | CallHas(id: string, sought: AnySubject)
    | CallEnqueue(id: string, jws: string)
    | CallQueued(id: string)
  {
    /** The action is a call that can change the store. */
    predicate IsCall() {
      CallCreate? || CallUpdate? || CallDelete? || CallSetStatus? || CallAdd? || CallRemove? || CallEnqueue?
    }

    /** The call it makes then; configurations and requests are passed as they are at that moment. */
    predicate Makes(call: Call) {
      match this
      case CallCreate(_) => call.CreateStream?
      case CallUpdate(_) => call.UpdateStream?
      case CallDelete(id) => call == DeleteStream(id)
      case CallSetStatus(id, request) => call.SetStreamStatus? && call.id == id
      case CallAdd(id, member) => call == AddSubject(id, member)
      case CallRemove(id, member) => call == RemoveSubject(id, member)
      case CallEnqueue(id, jws) => call == EnqueueSET(id, jws)
      case _ => false
    }
  }

  /** All that can be reached from the configuration is in `mine`. */
  ghost predicate Held(c: StreamConfig, mine: set<object>)
    reads c
  {
    && c in mine
    && (c.aud != null ==> c.aud in mine)
    && (c.supported != null ==> c.supported in mine)
    && (c.requested != null ==> c.requested in mine)
    && (c.delivered != null ==> c.delivered in mine)
    && (!c.delivery.Known() ==> c.delivery.unknown.raw in mine)
  }

  lemma HeldIsReach(c: StreamConfig, mine: set<object>)
    ensures Held(c, mine) <==> c.Reach() <= mine
  {
  }

  ghost predicate HeldRequest(r: StatusUpdateRequest, mine: set<object>)
    reads r
  {
    r in mine && (r.subject != null ==> r.subject in mine)
  }

  ghost predicate HeldResponse(r: StatusResponse, mine: set<object>)
    reads r
  {
    r in mine && (r.subject != null ==> r.subject in mine)
  }

  /** The bytes behind the unknown deliveries of the streams, which the store shares with its callers. */
  ghost predicate Shared(model: map<string, Stream>, mine: set<object>) {
    forall id | id in model && !model[id].config.delivery.Known() :: model[id].config.delivery.unknown.raw in mine
  }

  ghost predicate AllKnown(model: map<string, Stream>) {
    forall id | id in model :: model[id].config.delivery.Known()
  }

  /** The bytes behind the unknown deliveries, which can be reached from the store but are not its own. */
  ghost function Carriers(model: map<string, Stream>): set<object> {
    set id | id in model && !model[id].config.delivery.Known() :: model[id].config.delivery.unknown.raw
  }

  lemma SeparateIff(model: map<string, Stream>, mine: set<object>, repr: set<object>)
    requires mine !! repr && Shared(model, mine)
    ensures mine !! repr + Carriers(model) <==> AllKnown(model)
  {
    if !AllKnown(model) {
      var id :| id in model && !model[id].config.delivery.Known();
      assert model[id].config.delivery.unknown.raw in mine * (repr + Carriers(model));
    } else {
      assert Carriers(model) == {};
    }
  }

  /** The bytes behind an unknown delivery in the arguments of the call. */
  ghost predicate Carries(call: Call, mine: set<object>) {
    (call.CreateStream? || call.UpdateStream?) && call.cfg.Some? && !call.cfg.value.delivery.Known() ==>
      call.cfg.value.delivery.unknown.raw in mine
  }

  /** Whatever bytes the store shares after a call it shared before, or they came with the call. */
  lemma SharedBytesComeFromCallers(c: Setting, m: Store, call: Call, mine: set<object>)
    requires Shared(m.streams, mine) && Carries(call, mine)
    ensures Shared(After(c, m, call).streams, mine)
  {
    hide Key, Mint;
  }

  /** What a store returns brings no objects but its own new ones and such bytes. */
  lemma ReturnedIsHeld(out: StreamConfig, mine: set<object>)
    requires !out.View().delivery.Known() ==> out.View().delivery.unknown.raw in mine
    ensures out in out.Owned() && Held(out, mine + out.Owned())
  {
  }

  lemma ListedIsHeld(out: seq<StreamConfig>, m: Store, objects: set<object>, mine: set<object>)
    requires Listing(out, ListAll(m), objects) && Shared(m.streams, mine)
    ensures forall i | 0 <= i < |out| :: Held(out[i], mine + objects)
  {
    forall i | 0 <= i < |out|
      ensures Held(out[i], mine + objects)
    {
      SortedKeysEnumerate(m.streams.Keys);
      assert SortedKeys(m.streams.Keys)[i] in m.streams;
      assert Shows(out[i], ListAll(m)[i]);
      ReturnedIsHeld(out[i], mine);
    }
  }

  /** A listing reaches the bytes behind every unknown delivery. */
  lemma ListedReaches(out: seq<StreamConfig>, m: Store, objects: set<object>, id: string)
    requires Listing(out, ListAll(m), objects) && id in m.streams && !m.streams[id].config.delivery.Known()
    ensures exists i | 0 <= i < |out| :: m.streams[id].config.delivery.unknown.raw in out[i].Reach()
  {
    SortedKeysEnumerate(m.streams.Keys);
    var ids := SortedKeys(m.streams.Keys);
    var i :| 0 <= i < |ids| && ids[i] == id;
    assert Shows(out[i], ListAll(m)[i]);
  }

  lemma ResultDelivery(c: Setting, m: Store, call: Call)
    ensures call.CreateStream? && Create(c.idSeed, m, call.cfg).1.Ok? ==>
              call.cfg.Some? && Create(c.idSeed, m, call.cfg).1.value.delivery == call.cfg.value.delivery
    ensures call.UpdateStream? && Update(m, call.cfg).1.Ok? ==>
              call.cfg.Some? && Update(m, call.cfg).1.value.delivery == call.cfg.value.delivery
  {
  }

  method Assign(c: StreamConfig, f: Fields, aud: array?<char>, supported: array?<string>,
                requested: array?<string>, delivered: array?<string>, d: Delivery)
    modifies c
    ensures c.aud == aud && c.supported == supported && c.requested == requested && c.delivered == delivered
    ensures c.delivery == d && c.streamID == f.streamID && c.iss == f.iss
    ensures c.minVerificationInterval == f.minVerificationInterval && c.format == f.format
  {
    c.streamID, c.iss, c.aud, c.supported := f.streamID, f.iss, aud, supported;
    c.requested, c.delivered, c.delivery := requested, delivered, d;
    c.minVerificationInterval, c.format := f.minVerificationInterval, f.format;
  }

  class Caller {
    const store: InMemoryStore
    var configs: seq<StreamConfig>
    var chars: seq<array<char>>
    var strings: seq<array<string>>
    var requests: seq<StatusUpdateRequest>
    var responses: seq<StatusResponse>

    /** Everything the caller can write to. */
    ghost var mine: set<object>

    /** The store when the session began, and the calls made on it since. */
    ghost const start: Store
    ghost var log: seq<Call>

    /** The caller can reach nothing of the store's, and the store is what the calls alone make it. */
    ghost predicate Apart()
      reads this, mine, store, store.Repr
    {
      && store.Valid() && this !in store.Repr && this !in mine && store !in mine && mine !! store.Repr
      && (forall c | c in configs :: c in mine && Held(c, mine))
      && (forall r | r in requests :: r in mine && HeldRequest(r, mine))
      && (forall r | r in responses :: r in mine && HeldResponse(r, mine))
      && (forall a | a in chars :: a in mine)
      && (forall a | a in strings :: a in mine)
      && Shared(store.model, mine)
      && store.Model() == Run(store.setting, start, log)
    }

    constructor (store: InMemoryStore)
      requires store.Valid()
      requires forall id | id in store.model && !store.model[id].config.delivery.Known() ::
                 store.model[id].config.delivery.unknown.raw !in store.Repr
      ensures Apart() && this.store == store && start == store.Model() && log == []
    {
      this.store := store;
      configs, chars, strings, requests, responses := [], [], [], [], [];
      mine := set id | id in store.model && !store.model[id].config.delivery.Known() ::
        store.model[id].config.delivery.unknown.raw;
      start, log := store.Model(), [];
    }

    // ---------------------------------------------------------------- the caller's own objects

    method NewChars(text: string)
      requires Apart()
      modifies this
      ensures Apart() && log == old(log) && store.Repr == old(store.Repr)
      ensures old(mine) <= mine && fresh(mine - old(mine))
    {
      hide Run, Shared, InMemoryStore.Holds;
      var a := new char[|text|](i requires 0 <= i < |text| => text[i]);
      GrowsShared({a});
      chars, mine := chars + [a], mine + {a};
    }

    method NewStrings(list: seq<string>)
      requires Apart()
      modifies this
      ensures Apart() && log == old(log) && store.Repr == old(store.Repr)
      ensures old(mine) <= mine && fresh(mine - old(mine))
    {
      hide Run, Shared, InMemoryStore.Holds;
      var a := new string[|list|](i requires 0 <= i < |list| => list[i]);
      GrowsShared({a});
      strings, mine := strings + [a], mine + {a};
    }

    method WriteChar(i: nat, k: nat, c: char)
      requires Apart()
      modifies mine
      ensures Apart() && log == old(log) && mine == old(mine) && store.Repr == old(store.Repr)
    {
      hide Run, Shared, InMemoryStore.Holds;
      if i < |chars| && k < chars[i].Length {
        assert chars[i] in mine;
        chars[i][k] := c;
      }
    }

    method WriteString(i: nat, k: nat, s: string)
      requires Apart()
      modifies mine
      ensures Apart() && log == old(log) && mine == old(mine) && store.Repr == old(store.Repr)
    {
      hide Run, Shared, InMemoryStore.Holds;
      if i < |strings| && k < strings[i].Length {
        assert strings[i] in mine;
        strings[i][k] := s;
      }
    }

    /** The slice at a position; nil for no or an impossible one. */
    function Chars(i: Option<nat>): (a: array?<char>)
      requires Apart()
      reads this, mine, store, store.Repr
      ensures a != null ==> a in mine
    {
      if i.Some? && i.value < |chars| then chars[i.value] else null
    }

    function Strings(i: Option<nat>): (a: array?<string>)
      requires Apart()
      reads this, mine, store, store.Repr
      ensures a != null ==> a in mine
    {
      if i.Some? && i.value < |strings| then strings[i.value] else null
    }

    function Config(i: Option<nat>): (c: StreamConfig?)
      requires Apart()
      reads this, mine, store, store.Repr
      ensures c != null ==> Held(c, mine)
    {
      if i.Some? && i.value < |configs| then configs[i.value] else null
    }

    /** The configuration at a position as an argument of a call. */
    ghost function Arg(i: Option<nat>): Option<StoreModel.Config>
      requires Apart()
      reads this, mine, store, store.Repr
    {
      if Config(i) == null then None else Some(Config(i).View())
    }

    /** The named slices, and a delivery: known, or with a carrier of some bytes the caller holds. */
    method Pick(f: Fields)
      returns (aud: array?<char>, supported: array?<string>, requested: array?<string>, delivered: array?<string>,
               d: Delivery)
      requires Apart()
      ensures Apart()
      ensures aud != null ==> aud in mine
      ensures supported != null ==> supported in mine
      ensures requested != null ==> requested in mine
      ensures delivered != null ==> delivered in mine
      ensures !d.Known() ==> d.unknown.raw in mine
    {
      hide Run, Shared;
      aud, supported := Chars(f.aud), Strings(f.supported);
      requested, delivered := Strings(f.requested), Strings(f.delivered);
      var raw := Chars(f.unknown);
      if raw == null {
        d := Delivery(f.uri, f.endpointURL, f.authorizationHeader, null);
      } else {
        var carrier := new UnknownDelivery(f.uri, raw);
        d := Delivery(f.uri, f.endpointURL, f.authorizationHeader, carrier);
      }
    }

    method NewConfig(f: Fields)
      requires Apart()
      modifies this
      ensures Apart() && log == old(log) && store.Repr == old(store.Repr)
      ensures old(mine) <= mine && fresh(mine - old(mine))
    {
      var aud, supported, requested, delivered, d := Pick(f);
      var c := new StreamConfig(f.streamID, f.iss, aud, supported, requested, delivered, d,
                                f.minVerificationInterval, f.format);
      Keep([c], {c});
    }

    /** Adds configurations the caller has just obtained, with the objects they bring. */
    method Keep(list: seq<StreamConfig>, ghost parts: set<object>)
      requires Apart() && parts !! store.Repr && this !in parts && store !in parts
      requires forall i | 0 <= i < |list| :: Held(list[i], mine + parts)
      modifies this
      ensures Apart() && log == old(log) && mine == old(mine) + parts && store.Repr == old(store.Repr)
      ensures configs == old(configs) + list
    {
      hide Run, Shared, InMemoryStore.Holds;
      GrowsShared(parts);
      mine := mine + parts;
      configs := configs + list;
    }

    lemma GrowsShared(parts: set<object>)
      ensures Shared(store.model, mine) ==> Shared(store.model, mine + parts)
    {
    }

    method WriteConfig(i: nat, f: Fields)
      requires Apart()
      modifies mine
      ensures Apart() && log == old(log) && mine == old(mine) && store.Repr == old(store.Repr)
    {
      hide Run, Shared, InMemoryStore.Holds;
      if i < |configs| {
        var c := configs[i];
        assert Held(c, mine);
        var aud, supported, requested, delivered, d := Pick(f);
        Assign(c, f, aud, supported, requested, delivered, d);
      }
    }

    method NewRequest(status: string, reason: string, subject: Option<nat>)
      requires Apart()
      modifies this
      ensures Apart() && log == old(log) && store.Repr == old(store.Repr)
      ensures old(mine) <= mine && fresh(mine - old(mine))
    {
      hide Run, Shared, InMemoryStore.Holds;
      var r := new StatusUpdateRequest(status, reason, Chars(subject));
      GrowsShared({r});
      requests, mine := requests + [r], mine + {r};
    }

    method WriteRequest(i: nat, status: string, reason: string, subject: Option<nat>)
      requires Apart()
      modifies mine
      ensures Apart() && log == old(log) && mine == old(mine) && store.Repr == old(store.Repr)
    {
      hide Run, Shared, InMemoryStore.Holds;
      if i < |requests| {
        var r := requests[i];
        assert r in mine;
        r.status, r.reason, r.subject := status, reason, Chars(subject);
      }
    }

    method WriteResponse(i: nat, status: string, reason: string, subject: Option<nat>)
      requires Apart()
      modifies mine
      ensures Apart() && log == old(log) && mine == old(mine) && store.Repr == old(store.Repr)
    {
      hide Run, Shared, InMemoryStore.Holds;
      if i < |responses| {
        var r := responses[i];
        assert r in mine;
        r.status, r.reason, r.subject := status, reason, Chars(subject);
      }
    }

    // ---------------------------------------------------------------- calls on the store

    /** After a call on the store that changed only the store, and what it made of its value. */
    twostate lemma Called(call: Call)
      requires old(Apart()) && store.Valid() && log == old(log) + [call] && Carries(call, mine)
      requires mine == old(mine) && configs == old(configs) && chars == old(chars) && strings == old(strings)
      requires requests == old(requests) && responses == old(responses)
      requires forall o | o in mine :: unchanged(o)
      requires fresh(store.Repr - old(store.Repr)) && old(store.Repr) <= store.Repr
      requires store.Model() == After(store.setting, old(store.Model()), call)
      ensures Apart()
    {
      SharedBytesComeFromCallers(store.setting, old(store.Model()), call, mine);
      hide After, StreamConfig.View, StreamConfig.Owned, Shared, Carries;
      assert log[..|log| - 1] == old(log);
      assert old(Run(store.setting, start, log)) == Run(store.setting, start, old(log));
    }

    lemma Facts(cfg: StreamConfig?)
      requires Apart() && (cfg != null ==> Held(cfg, mine))
      ensures store.Valid() && this !in store.Repr && this !in mine && store !in mine && mine !! store.Repr
      ensures Shared(store.model, mine)
      ensures cfg != null ==>
                forall call: Call | (call.CreateStream? || call.UpdateStream?) && call.cfg == Some(cfg.View()) ::
                Carries(call, mine)
      ensures forall call: Call | (!call.CreateStream? && !call.UpdateStream?) || call.cfg.None? :: Carries(call, mine)
    {
    }

    method DoCreate(cfg: StreamConfig?) returns (out: StreamConfig?)
      requires Apart() && (cfg != null ==> Held(cfg, mine))
      modifies this, store
      ensures Apart() && mine == old(mine) && configs == old(configs) && fresh(store.Repr - old(store.Repr))
      ensures log == old(log) + [CreateStream(if cfg == null then None else Some(old(cfg.View())))]
      ensures out != null ==> fresh(out.Owned()) && out.Owned() !! store.Repr
      ensures out != null ==> cfg != null && out.View().delivery == old(cfg.View()).delivery
    {
      hide Apart, Run, Create, StreamConfig.View, StreamConfig.Owned, Shared, Carries, Held, InMemoryStore.Valid,
           InMemoryStore.Holds;
      Facts(cfg);
      ghost var call := CreateStream(if cfg == null then None else Some(cfg.View()));
      ResultDelivery(store.setting, store.Model(), call);
      var err;
      out, err := store.CreateStream(cfg);
      log := log + [call];
      Called(call);
    }

    method DoUpdate(cfg: StreamConfig?) returns (out: StreamConfig?)
      requires Apart() && (cfg != null ==> Held(cfg, mine))
      modifies this, store
      ensures Apart() && mine == old(mine) && configs == old(configs) && fresh(store.Repr - old(store.Repr))
      ensures log == old(log) + [UpdateStream(if cfg == null then None else Some(old(cfg.View())))]
      ensures out != null ==> fresh(out.Owned()) && out.Owned() !! store.Repr
      ensures out != null ==> cfg != null && out.View().delivery == old(cfg.View()).delivery
    {
      hide Apart, Run, Update, StreamConfig.View, StreamConfig.Owned, Shared, Carries, Held, InMemoryStore.Valid,
           InMemoryStore.Holds;
      Facts(cfg);
      ghost var call := UpdateStream(if cfg == null then None else Some(cfg.View()));
      ResultDelivery(store.setting, store.Model(), call);
      var err;
      out, err := store.UpdateStream(cfg);
      log := log + [call];
      Called(call);
    }

    lemma HeldDelivery(c: StreamConfig)
      requires Held(c, mine)
      ensures !c.View().delivery.Known() ==> c.View().delivery.unknown.raw in mine
    {
    }

    method CallCreate(i: Option<nat>)
      requires Apart()
      modifies this, store
      ensures Apart() && fresh(store.Repr - old(store.Repr)) && old(mine) <= mine && fresh(mine - old(mine))
      ensures log == old(log) + [CreateStream(old(Arg(i)))]
    {
      hide Run, StreamConfig.View, StreamConfig.Owned, Shared, Held, InMemoryStore.Valid;
      var cfg := Config(i);
      if cfg != null {
        HeldDelivery(cfg);
      }
      var out := DoCreate(cfg);
      if out != null {
        ReturnedIsHeld(out, mine);
        Keep([out], out.Owned());
      }
    }

    method CallUpdate(i: Option<nat>)
      requires Apart()
      modifies this, store
      ensures Apart() && fresh(store.Repr - old(store.Repr)) && old(mine) <= mine && fresh(mine - old(mine))
      ensures log == old(log) + [UpdateStream(old(Arg(i)))]
    {
      hide Run, StreamConfig.View, StreamConfig.Owned, Shared, Held, InMemoryStore.Valid;
      var cfg := Config(i);
      if cfg != null {
        HeldDelivery(cfg);
      }
      var out := DoUpdate(cfg);
      if out != null {
        ReturnedIsHeld(out, mine);
        Keep([out], out.Owned());
      }
    }

    lemma SharedDelivery(id: string)
      requires Apart()
      ensures id in store.model && !store.model[id].config.delivery.Known() ==>
                store.model[id].config.delivery.unknown.raw in mine
    {
    }

    method CallGet(id: string)
      requires Apart()
      modifies this
      ensures Apart() && log == old(log) && store.Repr == old(store.Repr)
      ensures old(mine) <= mine && fresh(mine - old(mine))
    {
      hide Run, StreamConfig.View, StreamConfig.Owned, Shared, Held, InMemoryStore.Holds;
      Facts(null);
      SharedDelivery(id);
      var out, _ := store.GetStream(id);
      if out != null {
        ReturnedIsHeld(out, mine);
        Keep([out], out.Owned());
      }
    }

    /** After a listing the caller's configurations reach nothing that can be reached from the store
        exactly when every delivery in the store is known. */
    method CallList()
      requires Apart()
      modifies this
      ensures Apart() && log == old(log) && store.Repr == old(store.Repr)
      ensures old(mine) <= mine && fresh(mine - old(mine))
      ensures (forall c | c in configs :: c.Reach() !! store.Repr + Carriers(store.model)) <==> AllKnown(store.model)
    {
      hide Run, StreamConfig.View, StreamConfig.Owned, Shared, Held, ListAll, Listing, InMemoryStore.Valid, Carriers,
           StreamConfig.Reach, AllKnown;
      var out, objects := store.ListStreams();
      ListedIsHeld(out, store.Model(), objects, mine);
      Keep(out, objects);
      ListedSeparateIff(out, objects);
    }

    lemma ListedSeparateIff(out: seq<StreamConfig>, objects: set<object>)
      requires Apart() && Listing(out, ListAll(store.Model()), objects) && forall c | c in out :: c in configs
      ensures (forall c | c in configs :: c.Reach() !! store.Repr + Carriers(store.model)) <==> AllKnown(store.model)
    {
      hide Run, Shared, InMemoryStore.Valid, ListAll, Listing, StreamConfig.Reach;
      if AllKnown(store.model) {
        assert Carriers(store.model) == {};
        Separate();
      } else {
        var id :| id in store.model && !store.model[id].config.delivery.Known();
        ListedReaches(out, store.Model(), objects, id);
        var i :| 0 <= i < |out| && store.model[id].config.delivery.unknown.raw in out[i].Reach();
        assert out[i] in configs && store.model[id].config.delivery.unknown.raw in Carriers(store.model);
      }
    }

    method CallDelete(id: string)
      requires Apart()
      modifies this, store
      ensures Apart() && store.Repr == old(store.Repr) && mine == old(mine)
      ensures log == old(log) + [DeleteStream(id)]
    {
      hide Apart, Run, Shared, Carries, Held, InMemoryStore.Valid, InMemoryStore.Holds;
      Facts(null);
      store.DeleteStream(id);
      log := log + [DeleteStream(id)];
      Called(DeleteStream(id));
    }

    /** The request at a position; nil for no or an impossible one. */
    function Request(i: Option<nat>): (r: StatusUpdateRequest?)
      requires Apart()
      reads this, mine, store, store.Repr
      ensures r != null ==> HeldRequest(r, mine)
    {
      if i.Some? && i.value < |requests| then requests[i.value] else null
    }

    /** The request at a position as an argument of a call. */
    ghost function RequestArg(i: Option<nat>): Option<Status>
      requires Apart()
      reads this, mine, store, store.Repr
    {
      if Request(i) == null then None else Some(Request(i).View())
    }

    method CallSetStatus(id: string, i: Option<nat>)
      requires Apart()
      modifies this, store
      ensures Apart() && fresh(store.Repr - old(store.Repr)) && old(mine) <= mine && fresh(mine - old(mine))
      ensures log == old(log) + [SetStreamStatus(id, old(RequestArg(i)))]
    {
      hide Run, Shared, Held, InMemoryStore.Valid;
      var out := DoSetStatus(id, Request(i));
      if out != null {
        KeepResponse(out);
      }
    }

    method DoSetStatus(id: string, req: StatusUpdateRequest?) returns (out: StatusResponse?)
      requires Apart()
      modifies this, store
      ensures Apart() && mine == old(mine) && configs == old(configs) && fresh(store.Repr - old(store.Repr))
      ensures log == old(log) + [SetStreamStatus(id, if req == null then None else Some(old(req.View())))]
      ensures out != null ==> fresh(out.Owned()) && out.Owned() !! store.Repr
    {
      hide Apart, Run, Shared, Carries, Held, InMemoryStore.Valid, InMemoryStore.Holds, SetStatus, Key,
           StatusUpdateRequest.View, StatusResponse.View, StatusResponse.Owned;
      Facts(null);
      ghost var call := SetStreamStatus(id, if req == null then None else Some(req.View()));
      var err;
      out, err := store.SetStreamStatus(id, req);
      log := log + [call];
      Called(call);
    }

    /** Keeps a status the caller has just obtained, and its subject. */
    method KeepResponse(r: StatusResponse)
      requires Apart() && r.Owned() !! store.Repr
      modifies this
      ensures Apart() && log == old(log) && mine == old(mine) + r.Owned() && store.Repr == old(store.Repr)
    {
      hide Run, Shared, InMemoryStore.Holds;
      GrowsShared(r.Owned());
      responses, mine := responses + [r], mine + r.Owned();
      if r.subject != null {
        chars := chars + [r.subject];
      }
    }

    /** Keeps a slice the caller has just obtained. */
    method KeepStrings(a: array<string>)
      requires Apart() && a !in store.Repr
      modifies this
      ensures Apart() && log == old(log) && mine == old(mine) + {a} && store.Repr == old(store.Repr)
    {
      hide Run, Shared, InMemoryStore.Holds;
      GrowsShared({a});
      strings, mine := strings + [a], mine + {a};
    }

    method CallGetStatus(id: string, subject: Option<nat>)
      requires Apart()
      modifies this
      ensures Apart() && log == old(log) && store.Repr == old(store.Repr)
      ensures old(mine) <= mine && fresh(mine - old(mine))
    {
      hide Run, Shared, Held, InMemoryStore.Holds, GetStatus, Key;
      Facts(null);
      var out, _ := store.GetStreamStatus(id, Chars(subject));
      if out != null {
        KeepResponse(out);
      }
    }

    method CallAdd(id: string, member: Option<Option<Encoding>>)
      requires Apart()
      modifies this, store
      ensures Apart() && store.Repr == old(store.Repr) && mine == old(mine)
      ensures log == old(log) + [AddSubject(id, member)]
    {
      hide Apart, Run, Shared, Carries, Held, InMemoryStore.Valid, InMemoryStore.Holds, SetMembership;
      Facts(null);
      var _ := store.AddSubject(id, member);
      log := log + [AddSubject(id, member)];
      Called(AddSubject(id, member));
    }

    method CallRemove(id: string, member: Option<Option<Encoding>>)
      requires Apart()
      modifies this, store
      ensures Apart() && store.Repr == old(store.Repr) && mine == old(mine)
      ensures log == old(log) + [RemoveSubject(id, member)]
    {
      hide Apart, Run, Shared, Carries, Held, InMemoryStore.Valid, InMemoryStore.Holds, SetMembership;
      Facts(null);
      var _ := store.RemoveSubject(id, member);
      log := log + [RemoveSubject(id, member)];
      Called(RemoveSubject(id, member));
    }

    method CallHas(id: string, sought: AnySubject)
      requires Apart()
      ensures Apart()
    {
      hide Run, Shared, Held, InMemoryStore.Holds, HasSubject;
      var _, _ := store.Has(id, sought);
    }

    method CallEnqueue(id: string, jws: string)
      requires Apart()
      modifies this, store
      ensures Apart() && store.Repr == old(store.Repr) && mine == old(mine)
      ensures log == old(log) + [EnqueueSET(id, jws)]
    {
      hide Apart, Run, Shared, Carries, Held, InMemoryStore.Valid, InMemoryStore.Holds, Enqueue;
      Facts(null);
      var _ := store.EnqueueSET(id, jws);
      log := log + [EnqueueSET(id, jws)];
      Called(EnqueueSET(id, jws));
    }

    method CallQueued(id: string)
      requires Apart()
      modifies this
      ensures Apart() && log == old(log) && store.Repr == old(store.Repr)
      ensures old(mine) <= mine && fresh(mine - old(mine))
    {
      hide Run, Shared, Held, InMemoryStore.Holds;
      Facts(null);
      var out, _ := store.QueuedSETs(id);
      if out != null {
        KeepStrings(out);
      }
    }

    /** Keeps the slices of a configuration, those behind an unknown delivery too. */
    method TakeApart(i: nat)
      requires Apart()
      modifies this
      ensures Apart() && log == old(log) && mine == old(mine) && store.Repr == old(store.Repr)
    {
      hide Run, Shared, InMemoryStore.Holds;
      if i < |configs| {
        var c := configs[i];
        assert Held(c, mine);
        chars := chars + (if c.aud == null then [] else [c.aud])
                 + (if c.delivery.Known() then [] else [c.delivery.unknown.raw]);
        strings := strings + (if c.supported == null then [] else [c.supported])
                   + (if c.requested == null then [] else [c.requested])
                   + (if c.delivered == null then [] else [c.delivered]);
      }
    }

    // ---------------------------------------------------------------- whole sessions

    method Do(action: Action)
      requires Apart()
      modifies this, store, mine
      ensures Apart() && old(mine) <= mine && fresh(mine - old(mine)) && fresh(store.Repr - old(store.Repr))
      ensures !action.IsCall() ==> log == old(log)
      ensures action.IsCall() ==> exists call :: log == old(log) + [call] && action.Makes(call)
    {
      hide Apart;
      if action.IsCall() {
        DoCall(action);
      } else {
        DoOther(action);
      }
    }

    method DoOther(action: Action)
      requires Apart() && !action.IsCall()
      modifies this, mine
      ensures Apart() && log == old(log) && store.Repr == old(store.Repr)
      ensures old(mine) <= mine && fresh(mine - old(mine))
    {
      hide Apart, InMemoryStore.Valid;
      match action {
        case NewChars(text) => NewChars(text);
        case NewStrings(list) => NewStrings(list);
        case NewConfig(fields) => NewConfig(fields);
        case NewRequest(status, reason, subject) => NewRequest(status, reason, subject);
        case WriteChar(i, k, c) => WriteChar(i, k, c);
        case WriteString(i, k, s) => WriteString(i, k, s);
        case WriteConfig(i, fields) => WriteConfig(i, fields);
        case WriteRequest(i, status, reason, subject) => WriteRequest(i, status, reason, subject);
        case WriteResponse(i, status, reason, subject) => WriteResponse(i, status, reason, subject);
        case TakeApart(i) => TakeApart(i);
        case CallGet(id) => CallGet(id);
        case CallList => CallList();
        case CallGetStatus(id, subject) => CallGetStatus(id, subject);
        case CallHas(id, sought) => CallHas(id, sought);
        case CallQueued(id) => CallQueued(id);
      }
    }

    method DoCall(action: Action)
      requires Apart() && action.IsCall()
      modifies this, store
      ensures Apart() && old(mine) <= mine && fresh(mine - old(mine)) && fresh(store.Repr - old(store.Repr))
      ensures exists call :: log == old(log) + [call] && action.Makes(call)
    {
      hide Apart, Config, Request, Arg, RequestArg, InMemoryStore.Valid;
      match action {
        case CallCreate(cfg) => CallCreate(cfg);
        case CallUpdate(cfg) => CallUpdate(cfg);
        case CallDelete(id) => CallDelete(id);
        case CallSetStatus(id, request) => CallSetStatus(id, request);
        case CallAdd(id, member) => CallAdd(id, member);
        case CallRemove(id, member) => CallRemove(id, member);
        case CallEnqueue(id, jws) => CallEnqueue(id, jws);
      }
      assert log == old(log) + [log[|log| - 1]] && action.Makes(log[|log| - 1]);
    }

    /** Whatever a caller does and in whatever order, it never comes to hold an object of the store's, and
        the store ends as the calls alone, replayed on its value, leave it: writes to objects passed in
        earlier or handed out since have no effect on it. (The value of a stream includes which carrier
        an unknown delivery has, not the bytes in it: the caller's objects are apart from everything that
        can be reached from the store exactly when every delivery in it is known.) */
    method Play(script: seq<Action>)
      requires Apart()
      modifies this, store, mine
      ensures Apart() && exists calls :: log == old(log) + calls && Follows(calls, script)
      ensures store.Model() == Run(store.setting, start, log)
      ensures forall id | id in store.streams :: store.streams[id].streamID == id
      ensures forall c | c in configs :: c.Reach() !! store.Repr
      ensures forall r | r in requests :: r.Owned() !! store.Repr
      ensures forall r | r in responses :: r.Owned() !! store.Repr
      ensures mine !! store.Repr + Carriers(store.model) <==> AllKnown(store.model)
    {
      hide InMemoryStore.Holds, Shared;
      ghost var calls: seq<Call> := [];
      for k := 0 to |script|
        invariant Apart() && old(mine) <= mine && fresh(mine - old(mine)) && fresh(store.Repr - old(store.Repr))
        invariant log == old(log) + calls && Follows(calls, script[..k])
      {
        assert script[..k + 1][..k] == script[..k];
        Do(script[k]);
        if script[k].IsCall() {
          ghost var call :| log == old(log) + calls + [call] && script[k].Makes(call);
          calls := calls + [call];
        }
      }
      assert script[..|script|] == script;
      Separate();
      SeparateIff(store.model, mine, store.Repr);
    }

    lemma Separate()
      requires Apart()
      ensures forall id | id in store.streams :: store.streams[id].streamID == id
      ensures forall c | c in configs :: c.Reach() !! store.Repr
      ensures forall r | r in requests :: r.Owned() !! store.Repr
      ensures forall r | r in responses :: r.Owned() !! store.Repr
    {
      hide Run, Shared;
      forall id | id in store.streams
        ensures store.streams[id].streamID == id
      {
        assert store.Holds(id);
      }
      forall c | c in configs
        ensures c.Reach() !! store.Repr
      {
        HeldIsReach(c, mine);
      }
    }
  }

  /** The calls are those the actions of the script make, in order. */
  ghost predicate Follows(calls: seq<Call>, script: seq<Action>) {
    if script == [] then calls == []
    else
      var k := |script| - 1;
      if script[k].IsCall() then
        calls != [] && script[k].Makes(calls[|calls| - 1]) && Follows(calls[..|calls| - 1], script[..k])
      else Follows(calls, script[..k])
  }

  /** The bytes behind the unknown delivery of the configuration GetStream returns. */
  method ReturnedRaw(store: InMemoryStore, id: string) returns (raw: array<char>)
    requires store.Valid() && id in store.model && !store.model[id].config.delivery.Known()
    ensures raw == store.model[id].config.delivery.unknown.raw
  {
    hide InMemoryStore.Holds;
    var out, _ := store.GetStream(id);
    raw := out.delivery.unknown.raw;
  }

  /** The exception. On every stream with an unknown delivery, writing to the bytes in a returned
      configuration writes to the bytes in every configuration returned later. */
  method UnknownBytesAreShared(store: InMemoryStore, id: string, k: nat, c: char)
    returns (before: string, later: string)
    requires store.Valid() && id in store.model && !store.model[id].config.delivery.Known()
    requires store.model[id].config.delivery.unknown.raw !in store.Repr
    requires k < store.model[id].config.delivery.unknown.raw.Length
    modifies store.model[id].config.delivery.unknown.raw
    ensures store.Valid() && k < |before| && later == before[k := c]
  {
    hide InMemoryStore.Holds;
    var first := ReturnedRaw(store, id);
    before := first[..];
    first[k] := c;
    var second := ReturnedRaw(store, id);
    later := second[..];
  }
}
