/** delivery_registry.go: the table of delivery methods and its history. */
module DeliveryRegistry {
  import opened Wrappers

  const PUSH := "urn:ietf:rfc:8935"
  const POLL := "urn:ietf:rfc:8936"

  /** What a factory returns: the Delivery into which a document of its method is decoded. */
  datatype Seed = Seed(uri: string, endpointURL: string, authorizationHeader: string)

  type Registry = map<string, Seed>

  const BUILTIN: Registry := map[PUSH := Seed(PUSH, "", ""), POLL := Seed(POLL, "", "")]

  datatype Registration = Registration(uri: string, factory: Seed)

  predicate Reserved(uri: string) {
    uri == PUSH || uri == POLL
  }

  class DeliveryMethods {
    var m: Registry

    constructor ()
      ensures m == BUILTIN
    {
      m := BUILTIN;
    }

    /** RegisterDeliveryMethod; the result is whether it was accepted. */
    method Register(uri: string, factory: Seed) returns (ok: bool)
      modifies this
      ensures ok <==> !Reserved(uri)
      ensures m == if ok then old(m)[uri := factory] else old(m)
    {
      if uri == PUSH || uri == POLL {
        return false;
      }
      m := m[uri := factory];
      ok := true;
    }

    /** Any number of registrations, by any callers, one after the other under the lock. */
    method RegisterAll(history: seq<Registration>)
      modifies this
      ensures m == After(old(m), history)
    {
      for i := 0 to |history|
        invariant m == After(old(m), history[..i])
      {
        assert history[..i + 1][..i] == history[..i];
        var _ := Register(history[i].uri, history[i].factory);
      }
      assert history[..|history|] == history;
    }
  }

  function After(r: Registry, history: seq<Registration>): Registry {
    if history == [] then r
    else
      var prev := After(r, history[..|history| - 1]);
      var last := history[|history| - 1];
      if Reserved(last.uri) then prev else prev[last.uri := last.factory]
  }

  /** However the registry has been used: a method that was there still is, a built-in resolves to
      its own factory, and any other to the last one registered for it. */
  lemma {:induction false} RegistryOnlyGrows(r: Registry, history: seq<Registration>, uri: string)
    ensures uri in r ==> uri in After(r, history)
    ensures Reserved(uri) && uri in r ==> After(r, history)[uri] == r[uri]
    ensures forall i | 0 <= i < |history| && history[i].uri == uri && !Reserved(uri) &&
                       (forall j | i < j < |history| :: history[j].uri != uri) ::
              uri in After(r, history) && After(r, history)[uri] == history[i].factory
    ensures uri in After(r, history) <==>
              uri in r || (!Reserved(uri) && exists i | 0 <= i < |history| :: history[i].uri == uri)
    ensures (forall i | 0 <= i < |history| :: history[i].uri != uri) && uri in r ==> After(r, history)[uri] == r[uri]
  {
    if history != [] {
      var init := history[..|history| - 1];
      RegistryOnlyGrows(r, init, uri);
      assert forall i | 0 <= i < |init| :: init[i] == history[i];
    }
  }

  /** The convention for factories: the method URI and nothing else. */
  ghost predicate ZeroSeeds(r: Registry) {
    forall uri <- r :: r[uri] == Seed(uri, "", "")
  }

  lemma {:induction false} ZeroSeedsStay(r: Registry, history: seq<Registration>)
    requires ZeroSeeds(r) && forall i | 0 <= i < |history| :: history[i].factory == Seed(history[i].uri, "", "")
    ensures ZeroSeeds(After(r, history))
  {
    if history != [] {
      ZeroSeedsStay(r, history[..|history| - 1]);
    }
  }
}

/** stream.go: the codec of Delivery, from text to text. */
module DeliveryCodec {
  import opened Wrappers
  import opened DeliveryRegistry
  import opened Json
  import opened JsonText
  import opened Text

  const METHOD := "method"
  const ENDPOINT_URL := "endpoint_url"
  const AUTHORIZATION_HEADER := "authorization_header"

  /** A Delivery; `unknown` carries the whole text of a method the registry did not know. */
  datatype Delivery = Delivery(uri: string, endpointURL: string, authorizationHeader: string, unknown: Option<string>) {
    predicate Known() { unknown.None? }
  }

  /** encoding/json filling a string field: keys match without regard to case, null leaves the field
      alone, a later member overrides an earlier one, and any other type is an error. */
  function ReadField(members: seq<Member>, name: string, seed: string): Option<string> {
    if members == [] then Some(seed)
    else
      var before := ReadField(members[..|members| - 1], name, seed);
      var last := members[|members| - 1];
      if FoldAll(last.key) != name || last.value.Null? || before.None? then before
      else if last.value.Str? then Some(last.value.s)
      else None
  }

  /** The members json.Unmarshal sees; null leaves every field alone. */
  function Members(text: string): Option<seq<Member>> {
    match Parse(text)
    case Good(Obj(members), _) => Some(members)
    case Good(Null, _) => Some([])
    case _ => None
  }

  /** Delivery.UnmarshalJSON; None is an error. */
  function Decode(r: Registry, text: string): Option<Delivery> {
    match Members(text)
    case None => None
    case Some(members) =>
      match ReadField(members, METHOD, "")
      case None => None
      case Some(uri) =>
        if uri in r then
          var seed := r[uri];
          var m := ReadField(members, METHOD, seed.uri);
          var e := ReadField(members, ENDPOINT_URL, seed.endpointURL);
          var a := ReadField(members, AUTHORIZATION_HEADER, seed.authorizationHeader);
          if m.None? || e.None? || a.None? then None
          else Some(Delivery(m.value, e.value, a.value, None))
        else Some(Delivery(uri, "", "", Some(text)))
  }

  function Field(name: string, value: string): seq<Member> {
    if value == "" then [] else [Member(name, Str(value))]
  }

  function Fields(d: Delivery): seq<Member> {
    Field(METHOD, d.uri) + Field(ENDPOINT_URL, d.endpointURL) + Field(AUTHORIZATION_HEADER, d.authorizationHeader)
  }

  /** Delivery.MarshalJSON: the carried text as it is, else the non-empty fields. */
  function Encode(d: Delivery): string {
    match d.unknown
    case Some(text) => text
    case None => Print(Obj(Fields(d)))
  }

  // ---------------------------------------------------------------- which members decide a field

  /** The member speaks for the field: its key is the name in any case, and it is not null. */
  predicate SpeaksFor(m: Member, name: string) {
    Spells(m.key, name) && !m.value.Null?
  }

  predicate PlainName(name: string) {
    forall i | 0 <= i < |name| :: 'a' <= name[i] <= 'z' || name[i] == '_'
  }

  /** A field cannot be read exactly when some member that speaks for it is not a string; otherwise the
      last such member decides it, and the seed if there is none. */
  lemma {:induction false} ReadFieldMeans(members: seq<Member>, name: string, seed: string)
    requires PlainName(name)
    ensures ReadField(members, name, seed).None? <==>
            exists i | 0 <= i < |members| :: SpeaksFor(members[i], name) && !members[i].value.Str?
    ensures ReadField(members, name, seed).Some? ==>
              && (forall i | 0 <= i < |members| && SpeaksFor(members[i], name) &&
                    (forall l | i < l < |members| :: !SpeaksFor(members[l], name)) ::
                    ReadField(members, name, seed).value == members[i].value.s)
              && ((forall i | 0 <= i < |members| :: !SpeaksFor(members[i], name)) ==>
                    ReadField(members, name, seed) == Some(seed))
  {
    hide Spells, FoldAll;
    if members != [] {
      var init, last := members[..|members| - 1], members[|members| - 1];
      ReadFieldMeans(init, name, seed);
      FoldsIffSpells(last.key, name);
      assert forall i | 0 <= i < |init| :: init[i] == members[i];
    }
  }

  ghost predicate Unreadable(members: seq<Member>, name: string) {
    exists i | 0 <= i < |members| :: SpeaksFor(members[i], name) && !members[i].value.Str?
  }

  lemma NamesArePlain()
    ensures PlainName(METHOD) && PlainName(ENDPOINT_URL) && PlainName(AUTHORIZATION_HEADER)
  {
  }

  /** Which texts decode: objects and null, with a readable method, and, when that is registered, two
      more readable fields; of an unregistered method nothing else is looked at. */
  lemma DecodesIff(r: Registry, text: string)
    ensures Decode(r, text).Some? <==>
            && (exists j :: Layout(text, j) && (j.Obj? || j.Null?))
            && Members(text).Some?
            && var ms := Members(text).value;
            && !Unreadable(ms, METHOD)
            && (ReadField(ms, METHOD, "").Some? && ReadField(ms, METHOD, "").value in r ==>
                  !Unreadable(ms, ENDPOINT_URL) && !Unreadable(ms, AUTHORIZATION_HEADER))
    ensures forall ms :: Members(text) == Some(ms) <==> Layout(text, Obj(ms)) || (Layout(text, Null) && ms == [])
  {
    hide Layout, ReadField, SpeaksFor, PlainName;
    forall j
      ensures Layout(text, j) <==> Parse(text).Good? && Parse(text).value == j
    {
      ParseIff(text, j);
    }
    NamesArePlain();
    if Members(text).Some? {
      var ms := Members(text).value;
      ReadFieldMeans(ms, METHOD, "");
      if ReadField(ms, METHOD, "").Some? {
        var uri := ReadField(ms, METHOD, "").value;
        if uri in r {
          ReadFieldMeans(ms, METHOD, r[uri].uri);
          ReadFieldMeans(ms, ENDPOINT_URL, r[uri].endpointURL);
          ReadFieldMeans(ms, AUTHORIZATION_HEADER, r[uri].authorizationHeader);
        }
      }
    }
  }

  /** What is decoded: under a registered method the three fields over the factory's seed, else the
      method alone with the whole text. */
  lemma DecodedFields(r: Registry, text: string)
    ensures Decode(r, text).Some? ==>
              var d, ms := Decode(r, text).value, Members(text).value;
              var uri := ReadField(ms, METHOD, "").value;
              if uri in r then
                && d.Known() && Some(d.uri) == ReadField(ms, METHOD, r[uri].uri)
                && Some(d.endpointURL) == ReadField(ms, ENDPOINT_URL, r[uri].endpointURL)
                && Some(d.authorizationHeader) == ReadField(ms, AUTHORIZATION_HEADER, r[uri].authorizationHeader)
              else d == Delivery(uri, "", "", Some(text))
  {
    hide ReadField, Members;
  }

  // ---------------------------------------------------------------- unknown methods

  /** A text is decoded as unknown exactly when the registry of the moment lacks its method; it
      is then re-encoded character by character, whatever is registered later, and read back as the same
      unknown Delivery until somebody registers its method, which nobody can for a built-in one. From
      then on it is read as a known one or refused. */
  lemma UnknownSurvives(r: Registry, history: seq<Registration>, text: string)
    ensures Decode(r, text).Some? ==>
              (Decode(r, text).value.Known() <==> ReadField(Members(text).value, METHOD, "").value in r)
    ensures Decode(r, text).Some? && !Decode(r, text).value.Known() ==>
              var d := Decode(r, text).value;
              var claimed := !Reserved(d.uri) && exists i | 0 <= i < |history| :: history[i].uri == d.uri;
              && Encode(d) == text
              && (Decode(After(r, history), Encode(d)) == Some(d) <==> !claimed)
              && (claimed ==> Decode(After(r, history), text).None? || Decode(After(r, history), text).value.Known())
  {
    hide Parse, ReadField, After;
    if Decode(r, text).Some? {
      RegistryOnlyGrows(r, history, Decode(r, text).value.uri);
    }
  }

  // ---------------------------------------------------------------- known methods

  lemma Names()
    ensures FoldAll(METHOD) == METHOD && FoldAll(ENDPOINT_URL) == ENDPOINT_URL
    ensures FoldAll(AUTHORIZATION_HEADER) == AUTHORIZATION_HEADER
    ensures METHOD != ENDPOINT_URL && METHOD != AUTHORIZATION_HEADER && ENDPOINT_URL != AUTHORIZATION_HEADER
  {
    assert METHOD[0] == 'm' && ENDPOINT_URL[0] == 'e' && AUTHORIZATION_HEADER[0] == 'a';
  }

  lemma ReadConcat(a: seq<Member>, name: string, key: string, value: string, seed: string)
    requires FoldAll(key) == key
    ensures ReadField(a + Field(key, value), name, seed) ==
            if key == name && value != "" && ReadField(a, name, seed).Some? then Some(value)
            else ReadField(a, name, seed)
  {
    if value == "" {
      assert a + Field(key, value) == a;
    } else {
      assert (a + Field(key, value))[..|a|] == a;
    }
  }

  lemma EncodedMembers(d: Delivery)
    requires d.Known()
    ensures Members(Encode(d)) == Some(Fields(d))
  {
    var j := Obj(Fields(d));
    assert forall m <- Fields(d) :: m.value.Str?;
    PrintRoundTrip(j);
  }

  function FieldOf(d: Delivery, name: string): string {
    if name == METHOD then d.uri
    else if name == ENDPOINT_URL then d.endpointURL
    else d.authorizationHeader
  }

  /** What is read back from the written fields: the field, or the seed if it was empty. */
  lemma FieldReads(d: Delivery, name: string, s: string)
    requires d.Known() && (name == METHOD || name == ENDPOINT_URL || name == AUTHORIZATION_HEADER)
    ensures ReadField(Fields(d), name, s) == Some(if FieldOf(d, name) == "" then s else FieldOf(d, name))
  {
    hide ReadField, Field, FoldAll;
    Names();
    var m, e := Field(METHOD, d.uri), Field(ENDPOINT_URL, d.endpointURL);
    NothingReads(name, s);
    assert [] + m == m;
    ReadConcat([], name, METHOD, d.uri, s);
    ReadConcat(m, name, ENDPOINT_URL, d.endpointURL, s);
    ReadConcat(m + e, name, AUTHORIZATION_HEADER, d.authorizationHeader, s);
  }

  lemma NothingReads(name: string, s: string)
    ensures ReadField([], name, s) == Some(s)
  {
  }

  lemma EncodedFields(d: Delivery, seed: Seed)
    requires d.Known()
    ensures var members := Fields(d);
            && Members(Encode(d)) == Some(members)
            && ReadField(members, METHOD, "") == Some(d.uri)
            && ReadField(members, METHOD, seed.uri) == Some(if d.uri == "" then seed.uri else d.uri)
            && ReadField(members, ENDPOINT_URL, seed.endpointURL) ==
               Some(if d.endpointURL == "" then seed.endpointURL else d.endpointURL)
            && ReadField(members, AUTHORIZATION_HEADER, seed.authorizationHeader) ==
               Some(if d.authorizationHeader == "" then seed.authorizationHeader else d.authorizationHeader)
  {
    hide ReadField, Fields, Encode, Members;
    EncodedMembers(d);
    Names();
    FieldReads(d, METHOD, "");
    FieldReads(d, METHOD, seed.uri);
    FieldReads(d, ENDPOINT_URL, seed.endpointURL);
    FieldReads(d, AUTHORIZATION_HEADER, seed.authorizationHeader);
  }

  /** Exactly which known Deliveries come back from their own encoding, under any registry: the
      method must be registered, and a field left empty must be empty in the factory's seed too,
      because empty fields are not written and the seed fills them in. */
  lemma KnownRoundTripIff(r: Registry, d: Delivery)
    requires d.Known()
    ensures Decode(r, Encode(d)) == Some(d) <==>
            && d.uri in r
            && (d.uri == "" ==> r[d.uri].uri == "")
            && (d.endpointURL == "" ==> r[d.uri].endpointURL == "")
            && (d.authorizationHeader == "" ==> r[d.uri].authorizationHeader == "")
  {
    hide ReadField, Fields, Encode, Members;
    EncodedFields(d, if d.uri in r then r[d.uri] else Seed("", "", ""));
  }

  /** The corner itself: a factory with an endpoint of its own puts it back where it was emptied. */
  lemma SeedFillsEmptiedField(uri: string, endpointURL: string)
    requires endpointURL != ""
    ensures var r := map[uri := Seed(uri, endpointURL, "")];
      Decode(r, Encode(Delivery(uri, "", "", None))) == Some(Delivery(uri, endpointURL, "", None))
  {
    hide ReadField, Fields, Encode, Members;
    EncodedFields(Delivery(uri, "", "", None), Seed(uri, endpointURL, ""));
  }

  /** With factories that follow the convention, a text decoded as known at any time decodes back
      to the same Delivery from its re-encoding at any later time. */
  lemma KnownSurvives(before: seq<Registration>, later: seq<Registration>, text: string)
    requires forall i | 0 <= i < |before| :: before[i].factory == Seed(before[i].uri, "", "")
    requires forall i | 0 <= i < |later| :: later[i].factory == Seed(later[i].uri, "", "")
    ensures var r := After(BUILTIN, before);
            Decode(r, text).Some? && Decode(r, text).value.Known() ==>
              Decode(After(r, later), Encode(Decode(r, text).value)) == Decode(r, text)
  {
    var r := After(BUILTIN, before);
    ZeroSeedsStay(BUILTIN, before);
    ZeroSeedsStay(r, later);
    if Decode(r, text).Some? && Decode(r, text).value.Known() {
      var d := Decode(r, text).value;
      SeedOrMember(Members(text).value, METHOD, ReadField(Members(text).value, METHOD, "").value);
      assert d.uri in r;
      RegistryOnlyGrows(r, later, d.uri);
      KnownRoundTripIff(After(r, later), d);
    }
  }

  /** Seeding the method field with what it decodes to changes nothing. */
  lemma {:induction false} SeedOrMember(members: seq<Member>, name: string, v: string)
    requires ReadField(members, name, "") == Some(v)
    ensures ReadField(members, name, v) == Some(v)
  {
    if members != [] {
      var init := members[..|members| - 1];
      if ReadField(init, name, "") == Some(v) {
        SeedOrMember(init, name, v);
      }
      ErrorsAreSeedless(init, name, "", v);
    }
  }

  lemma {:induction false} ErrorsAreSeedless(members: seq<Member>, name: string, s: string, t: string)
    ensures ReadField(members, name, s).None? <==> ReadField(members, name, t).None?
  {
    if members != [] {
      ErrorsAreSeedless(members[..|members| - 1], name, s, t);
    }
  }
}
