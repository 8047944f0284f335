/** client/discovery.go: the Cache-Control directives the cache honours (section 5.2 of RFC 9111). */
module CacheControl {
  import opened Wrappers
  import opened Decimal
  import opened Int64
  import opened Text

  /** strings.Split */
  function SplitOn(s: string, c: char): (parts: seq<string>)
    ensures |parts| > 0
    decreases |s|
  {
    var i := IndexOf(s, c);
    if i < |s| then [s[..i]] + SplitOn(s[i + 1..], c) else [s]
  }

  /** strings.ToLower, for the letters that matter in a directive's name. */
  function ToLower(s: string): string {
    seq(|s|, i requires 0 <= i < |s| => if 'A' <= s[i] <= 'Z' then (s[i] as int + 32) as char else s[i])
  }

  function Name(part: string): string {
    ToLower(TrimSpace(Cut(TrimSpace(part), '=').0))
  }

  predicate Forbids(part: string) {
    Name(part) == "no-store" || Name(part) == "no-cache"
  }

  /** The value of a well-formed max-age directive. */
  function MaxAgeOf(part: string): Option<int64> {
    var value := Cut(TrimSpace(part), '=').1;
    if Name(part) != "max-age" || value.None? then None
    else
      match ParseInt(TrimSpace(value.value))
      case Some(v) => if v < 0 then None else Some(v)
      case None => None
  }

  /** What one comma-separated part of the header says. */
  datatype Reading = Reading(maxAge: Option<int64>, forbids: bool)

  function Read(part: string): (r: Reading)
    ensures r.maxAge.Some? ==> r.maxAge.value >= 0
  {
    Reading(MaxAgeOf(part), Forbids(part))
  }

  function ReadAll(parts: seq<string>): seq<Reading> {
    if parts == [] then [] else ReadAll(parts[..|parts| - 1]) + [Read(parts[|parts| - 1])]
  }

  // ---------------------------------------------------------------- which texts are which directives

  predicate IsLower(word: string) {
    word != "" && forall i | 0 <= i < |word| ::
                    !('A' <= word[i] <= 'Z') && word[i] != '=' && !Text.IsSpace(word[i])
  }

  /** m is the word in any letter case. */
  predicate InCase(m: string, word: string) {
    |m| == |word| &&
    forall i | 0 <= i < |m| :: m[i] == word[i] || ('a' <= word[i] <= 'z' && m[i] as int + 32 == word[i] as int)
  }

  lemma LowerIff(m: string, word: string)
    requires IsLower(word)
    ensures ToLower(m) == word <==> InCase(m, word)
    ensures InCase(m, word) ==> Trimmed(m) && m != "" && '=' !in m
  {
    forall i | 0 <= i < |m| && i < |word|
      ensures ToLower(m)[i] == word[i] <==>
              m[i] == word[i] || ('a' <= word[i] <= 'z' && m[i] as int + 32 == word[i] as int)
    {
    }
    if InCase(m, word) {
      forall i | 0 <= i < |m|
        ensures m[i] != '=' && !Text.IsSpace(m[i])
      {
      }
    }
  }

  /** The part is a word with any space around it... */
  predicate BareAs(part: string, pre: string, m: string, post: string, word: string) {
    Blank(pre) && InCase(m, word) && Blank(post) && part == pre + m + post
  }

  /** ...or such a word, an equals sign and anything. */
  predicate ValuedAs(part: string, pre: string, m: string, post: string, rest: string, word: string) {
    Blank(pre) && InCase(m, word) && Blank(post) && part == pre + m + post + ['='] + rest
  }

  /** The part is the directive of that name, in any case, with any space, with or without a value. */
  ghost predicate IsDirective(part: string, word: string) {
    || (exists pre, m, post :: BareAs(part, pre, m, post, word))
    || (exists pre, m, post, rest :: ValuedAs(part, pre, m, post, rest, word))
  }

  lemma BareIs(part: string, pre: string, m: string, post: string, word: string)
    requires IsLower(word) && BareAs(part, pre, m, post, word)
    ensures Name(part) == word && Cut(TrimSpace(part), '=').1 == None
  {
    LowerIff(m, word);
    hide TrimSpace, ToLower, InCase, Cut;
    TrimSpaceDrops(pre, m, post);
    CutAt(m, '=', "");
    TrimSpaceDrops("", m, "");
    assert "" + m + "" == m;
  }

  lemma ValuedIs(part: string, pre: string, m: string, post: string, rest: string, word: string)
    requires IsLower(word) && ValuedAs(part, pre, m, post, rest, word)
    ensures Name(part) == word && Cut(TrimSpace(part), '=').1 == Some(TrimRight(rest))
  {
    hide TrimSpace, ToLower, InCase, Cut, TrimRight, Blank;
    LowerIff(m, word);
    var end := TrimRightSplits(rest);
    var kept := TrimRight(rest);
    var all := m + post + ['='] + kept;
    Pieces(pre, m, post, rest, kept, end);
    TrimmedJoin(m, post, kept);
    TrimSpaceDrops(pre, all, end);
    NoEquals(m, post);
    CutAt(m + post, '=', kept);
    TrimSpaceDrops("", m, post);
  }

  lemma Pieces(pre: string, m: string, post: string, rest: string, kept: string, end: string)
    requires rest == kept + end
    ensures pre + m + post + ['='] + rest == pre + (m + post + ['='] + kept) + end
    ensures "" + m + post == m + post
  {
  }

  lemma TrimmedJoin(m: string, post: string, kept: string)
    requires m != "" && Trimmed(m) && (kept == "" || !Text.IsSpace(kept[|kept| - 1]))
    ensures Trimmed(m + post + ['='] + kept)
  {
    var all := m + post + ['='] + kept;
    assert all[0] == m[0];
    assert all[|all| - 1] == if kept == "" then '=' else kept[|kept| - 1];
  }

  lemma NoEquals(m: string, post: string)
    requires '=' !in m && Blank(post)
    ensures '=' !in m + post
  {
  }

  /** The name of a part, from its text alone. */
  lemma NameIff(part: string, word: string)
    requires IsLower(word)
    ensures Name(part) == word <==> IsDirective(part, word)
  {
    hide BareAs, ValuedAs;
    forall pre, m, post | BareAs(part, pre, m, post, word)
      ensures Name(part) == word
    {
      BareIs(part, pre, m, post, word);
    }
    forall pre, m, post, rest | ValuedAs(part, pre, m, post, rest, word)
      ensures Name(part) == word
    {
      ValuedIs(part, pre, m, post, rest, word);
    }
    if Name(part) == word {
      NameShows(part, word);
    }
  }

  lemma NameShows(part: string, word: string)
    requires IsLower(word) && Name(part) == word
    ensures IsDirective(part, word)
  {
    hide TrimSpace, ToLower, InCase;
    var t := TrimSpace(part);
    var pre, post := TrimSpaceSplits(part);
    var a := Cut(t, '=').0;
    var before, after := TrimSpaceSplits(a);
    var m := TrimSpace(a);
    LowerIff(m, word);
    BlankJoins(pre, before);
    BlankJoins(after, post);
    if Cut(t, '=').1.None? {
      assert part == (pre + before) + m + (after + post);
      assert BareAs(part, pre + before, m, after + post, word);
    } else {
      var rest := Cut(t, '=').1.value;
      assert t == a + ['='] + rest;
      assert part == (pre + before) + m + after + ['='] + (rest + post);
      assert ValuedAs(part, pre + before, m, after, rest + post, word);
    }
  }

  lemma BlankJoins(a: string, b: string)
    requires Blank(a) && Blank(b)
    ensures Blank(a + b)
  {
  }

  /** Which parts forbid keeping the response. */
  lemma ForbidsIff(part: string)
    ensures Forbids(part) <==> IsDirective(part, "no-store") || IsDirective(part, "no-cache")
  {
    hide Name, IsDirective;
    NameIff(part, "no-store");
    NameIff(part, "no-cache");
  }

  /** A part gives a max-age exactly when it is max-age with a value that is, space aside, a decimal
      integer of 64 bits that is not negative. */
  lemma MaxAgeIff(part: string, v: int64)
    ensures MaxAgeOf(part) == Some(v) <==>
            v >= 0 && exists pre, m, post, rest ::
              ValuedAs(part, pre, m, post, rest, "max-age") && ParseInt(TrimSpace(rest)) == Some(v)
  {
    hide ValuedAs, BareAs, Name, TrimSpace, ParseInt, Cut;
    forall pre, m, post, rest | ValuedAs(part, pre, m, post, rest, "max-age")
      ensures Name(part) == "max-age" && Cut(TrimSpace(part), '=').1.Some?
      ensures TrimSpace(Cut(TrimSpace(part), '=').1.value) == TrimSpace(rest)
    {
      ValuedIs(part, pre, m, post, rest, "max-age");
      TrimRightFirst(rest);
    }
    if MaxAgeOf(part).Some? {
      NameShows(part, "max-age");
      forall pre, m, post | BareAs(part, pre, m, post, "max-age")
        ensures Cut(TrimSpace(part), '=').1 == None
      {
        BareIs(part, pre, m, post, "max-age");
      }
    }
  }

  lemma TrimRightFirst(s: string)
    ensures TrimSpace(TrimRight(s)) == TrimSpace(s)
  {
    hide TrimRight, TrimSpace;
    var post := TrimRightSplits(s);
    var kept := TrimRight(s);
    var before, after := TrimSpaceSplits(kept);
    BlankJoins(after, post);
    assert s == before + TrimSpace(kept) + (after + post);
    TrimSpaceDrops(before, TrimSpace(kept), after + post);
  }

  /** Where SplitOn cuts. */
  lemma SplitAt(a: string, c: char, rest: string)
    requires c !in a
    ensures SplitOn(a + [c] + rest, c) == [a] + SplitOn(rest, c)
    ensures SplitOn(a, c) == [a]
  {
    CutAt(a, c, rest);
  }

  lemma {:induction false} ReadsEachPart(parts: seq<string>)
    ensures |ReadAll(parts)| == |parts|
    ensures forall i | 0 <= i < |parts| :: ReadAll(parts)[i] == Reading(MaxAgeOf(parts[i]), Forbids(parts[i]))
  {
    hide MaxAgeOf, Forbids;
    if parts != [] {
      ReadsEachPart(parts[..|parts| - 1]);
    }
  }

  /** maxAge is -1 when no directive gives one. */
  datatype Directives = Directives(maxAge: int64, noStore: bool)

  /** The last well-formed max-age counts, and so does any no-store or no-cache. */
  ghost predicate IsSummary(rs: seq<Reading>, d: Directives) {
    && (d.noStore <==> exists i :: 0 <= i < |rs| && rs[i].forbids)
    && if d.maxAge == -1 then forall i | 0 <= i < |rs| :: rs[i].maxAge.None? else LastIs(rs, d.maxAge)
  }

  ghost predicate LastIs(rs: seq<Reading>, v: int64) {
    exists i :: 0 <= i < |rs| && rs[i].maxAge == Some(v) && forall j | i < j < |rs| :: rs[j].maxAge.None?
  }

  method ParseCacheControl(header: string) returns (d: Directives)
    ensures IsSummary(ReadAll(SplitOn(header, ',')), d) && d.maxAge >= -1
  {
    d := Directives(-1, false);
    var parts := SplitOn(header, ',');
    for i := 0 to |parts|
      invariant IsSummary(ReadAll(parts[..i]), d) && d.maxAge >= -1
    {
      var e := ReadDirective(parts[i], d);
      assert parts[..i + 1][..i] == parts[..i];
      Extend(ReadAll(parts[..i]), Read(parts[i]), d, e);
      d := e;
    }
    assert parts[..|parts|] == parts;
  }

  /** One turn of the loop of ParseCacheControl. */
  method ReadDirective(part: string, d: Directives) returns (e: Directives)
    ensures e.maxAge == if Read(part).maxAge.Some? then Read(part).maxAge.value else d.maxAge
    ensures e.noStore <==> d.noStore || Read(part).forbids
  {
    var directive := TrimSpace(part);
    if directive == "" {
      return d;
    }
    var (name, value) := Cut(directive, '=');
    name := ToLower(TrimSpace(name));
    e := d;
    if name == "no-store" || name == "no-cache" {
      e := e.(noStore := true);
    } else if name == "max-age" && value.Some? {
      var v := ParseInt(TrimSpace(value.value));
      if v.Some? && v.value >= 0 {
        e := e.(maxAge := v.value);
      }
    }
  }

  lemma Extend(rs: seq<Reading>, r: Reading, d: Directives, e: Directives)
    requires IsSummary(rs, d) && d.maxAge >= -1 && (r.maxAge.Some? ==> r.maxAge.value >= 0)
    requires e.maxAge == if r.maxAge.Some? then r.maxAge.value else d.maxAge
    requires e.noStore <==> d.noStore || r.forbids
    ensures IsSummary(rs + [r], e) && e.maxAge >= -1
  {
    var all := rs + [r];
    assert all[|rs|] == r;
    if d.noStore {
      var i :| 0 <= i < |rs| && rs[i].forbids;
      assert all[i].forbids;
    }
    if r.maxAge.None? && d.maxAge != -1 {
      var i :| 0 <= i < |rs| && rs[i].maxAge == Some(d.maxAge) && forall j | i < j < |rs| :: rs[j].maxAge.None?;
      assert all[i].maxAge == Some(e.maxAge);
    }
  }

  /** A header has one reading. */
  lemma SummaryIsUnique(rs: seq<Reading>, d: Directives, e: Directives)
    requires IsSummary(rs, d) && IsSummary(rs, e)
    requires forall i | 0 <= i < |rs| && rs[i].maxAge.Some? :: rs[i].maxAge.value >= 0
    ensures d == e
  {
    if d.maxAge != -1 && e.maxAge != -1 {
      var i :| 0 <= i < |rs| && rs[i].maxAge == Some(d.maxAge) && forall j | i < j < |rs| :: rs[j].maxAge.None?;
      var k :| 0 <= k < |rs| && rs[k].maxAge == Some(e.maxAge) && forall j | k < j < |rs| :: rs[j].maxAge.None?;
    }
  }
}

/** client/discovery.go: ConfigCache. `C` is the type of the cached document. */
module ConfigCache {
  import opened Wrappers
  import opened Int64
  import opened CacheControl

  datatype Response<+C> = Response(config: C, directives: Directives)

  datatype Entry<+C> = Entry(config: C, expiresAt: int)

  /** How long `store` keeps a response, the product in wrapping arithmetic; None to drop it. */
  function Freshness(ttl: int64, d: Directives): Option<int64> {
    if d.noStore || d.maxAge == 0 then None
    else if d.maxAge > 0 then
      var responseTTL := Wrap(d.maxAge * SECOND);
      Some(if responseTTL < ttl then responseTTL else ttl)
    else Some(ttl)
  }

  /** Wrap-around never makes an entry live longer than the response allows, or than the ttl. */
  lemma FreshnessIsBounded(ttl: int64, d: Directives)
    requires Freshness(ttl, d).Some? && d.maxAge >= -1
    ensures Freshness(ttl, d).value <= ttl
    ensures d.maxAge != -1 ==> d.maxAge > 0 && Freshness(ttl, d).value <= d.maxAge * SECOND
  {
  }

  /** Which responses are kept at all, and that one without a max-age is kept for the ttl. */
  lemma KeptIff(ttl: int64, d: Directives)
    requires d.maxAge >= -1
    ensures Freshness(ttl, d).Some? <==> !d.noStore && d.maxAge != 0
    ensures !d.noStore && d.maxAge == -1 ==> Freshness(ttl, d) == Some(ttl)
  {
  }

  /** It is the documented minimum except when the product wraps to less than the ttl. */
  lemma FreshnessIsMinimumIff(ttl: int64, d: Directives)
    requires ttl > 0 && d.maxAge > 0 && !d.noStore
    ensures Freshness(ttl, d) == Some(Min(ttl, d.maxAge * SECOND)) <==>
            d.maxAge * SECOND <= MAX || Wrap(d.maxAge * SECOND) >= ttl
  {
  }

  /** The corner itself: a max-age of about 585 years wraps to less than a third of a second. */
  lemma HugeMaxAgeWraps()
    ensures Freshness(3600 * SECOND, Directives(18446744074, false)) == Some(290448384)
    ensures 18446744074 * SECOND > 3600 * SECOND
  {
  }

  class ConfigCache<C> {
    const ttl: int64
    var entries: map<string, Entry<C>>

    constructor (ttl: int64)
      ensures this.ttl == ttl && entries == map[]
    {
      this.ttl := ttl;
      entries := map[];
    }

    method Lookup(key: string, now: int) returns (r: Option<C>)
      ensures r == if key in entries && now < entries[key].expiresAt then Some(entries[key].config) else None
    {
      if key !in entries {
        return None;
      }
      if !(now < entries[key].expiresAt) {
        return None;
      }
      r := Some(entries[key].config);
    }

    method Store(key: string, r: Response<C>, now: int)
      modifies this
      ensures entries ==
              match Freshness(ttl, r.directives)
              case None => old(entries)
              case Some(f) => old(entries)[key := Entry(r.config, now + f)]
    {
      if r.directives.noStore {
        return;
      }
      var freshness := ttl;
      if r.directives.maxAge == 0 {
        return;
      }
      if r.directives.maxAge > 0 {
        var responseTTL := Wrap(r.directives.maxAge * SECOND);
        if responseTTL < freshness {
          freshness := responseTTL;
        }
      }
      entries := entries[key := Entry(r.config, now + freshness)];
    }

    /** FetchTransmitterConfig by one goroutine: `origin` is what fetchOnce would come back with,
        `now` and `later` the clock before and after it. */
    method Fetch(key: string, origin: Option<Response<C>>, now: int, later: int) returns (r: Option<C>, fetched: bool)
      requires now <= later
      modifies this
      ensures fetched <==> ttl <= 0 || key !in old(entries) || now >= old(entries[key].expiresAt)
      ensures !fetched ==> r == Some(old(entries[key].config)) && entries == old(entries)
      ensures fetched ==> r == (match origin case None => None case Some(o) => Some(o.config))
      ensures ttl <= 0 || origin.None? ==> entries == old(entries)
      ensures fetched && ttl > 0 && origin.Some? && Freshness(ttl, origin.value.directives).Some? ==>
                entries == old(entries)[key := Entry(origin.value.config,
                                                     later + Freshness(ttl, origin.value.directives).value)]
      ensures fetched && ttl > 0 && origin.Some? && Freshness(ttl, origin.value.directives).None? ==>
                entries == old(entries)
    {
      if ttl > 0 {
        r := Lookup(key, now);
        if r.Some? {
          return r, false;
        }
      }
      fetched := true;
      if origin.None? {
        return None, true;
      }
      r := Some(origin.value.config);
      if ttl > 0 {
        Store(key, origin.value, later);
      }
    }
  }
}

/** The cache under concurrent fetches, each cut at every access to the shared table and to the
    clock, which never goes back. */
module CacheProtocol {
  import opened Wrappers
  import opened Int64
  import opened CacheControl
  import opened ConfigCache

  /** An entry of the table with, for the statements only, the response it came from and the reading
      of the clock it was dated by. */
  datatype Stored<+C> = Stored(entry: Entry<C>, response: Response<C>, at: int)

  datatype Phase<+C> =
    | Starting
    | Loaded(found: Option<Stored<C>>)            // lookup has read the table
    | Fetching
    | Got(response: Response<C>)
    | Dated(response: Response<C>, at: int)       // store has read the clock
    | FromCache(config: C, at: int, source: Stored<C>)
    | FromOrigin(response: Response<C>)
    | Failed

  datatype Call<+C> = Call(key: string, phase: Phase<C>)

  datatype State<+C> = State(ttl: int64, now: int, table: map<string, Stored<C>>, calls: seq<Call<C>>)

  datatype Step<+C> =
    | Tick(dt: nat)
    | Begin(key: string)
    | Load(i: nat)
    | Check(i: nat)
    | Receive(i: nat, response: Option<Response<C>>)
    | Date(i: nat)
    | Put(i: nat)

  predicate Enabled<C>(s: State<C>, step: Step<C>) {
    match step
    case Tick(_) => true
    case Begin(_) => true
    case Load(i) => i < |s.calls| && s.calls[i].phase.Starting? && s.ttl > 0
    case Check(i) => i < |s.calls| && s.calls[i].phase.Loaded?
    case Receive(i, r) =>
      i < |s.calls| && s.calls[i].phase.Fetching? && (r.Some? ==> r.value.directives.maxAge >= -1)
    case Date(i) => i < |s.calls| && s.calls[i].phase.Got? && s.ttl > 0
    case Put(i) => i < |s.calls| && s.calls[i].phase.Dated?
  }

  function Set<C>(s: State<C>, i: nat, phase: Phase<C>): State<C>
    requires i < |s.calls|
  {
    s.(calls := s.calls[i := s.calls[i].(phase := phase)])
  }

  function Apply<C>(s: State<C>, step: Step<C>): State<C>
    requires Enabled(s, step)
  {
    match step
    case Tick(dt) => s.(now := s.now + dt)
    case Begin(key) => s.(calls := s.calls + [Call(key, if s.ttl <= 0 then Fetching else Starting)])
    case Load(i) =>
      var key := s.calls[i].key;
      Set(s, i, Loaded(if key in s.table then Some(s.table[key]) else None))
    case Check(i) =>
      (match s.calls[i].phase.found
       case Some(x) =>
         if s.now < x.entry.expiresAt then Set(s, i, FromCache(x.entry.config, s.now, x)) else Set(s, i, Fetching)
       case None => Set(s, i, Fetching))
    case Receive(i, r) =>
      (match r
       case None => Set(s, i, Failed)
       case Some(response) => if s.ttl <= 0 then Set(s, i, FromOrigin(response)) else Set(s, i, Got(response)))
    case Date(i) => Set(s, i, Dated(s.calls[i].phase.response, s.now))
    case Put(i) =>
      var Dated(response, at) := s.calls[i].phase;
      var t := Set(s, i, FromOrigin(response));
      (match Freshness(s.ttl, response.directives)
       case None => t
       case Some(f) => t.(table := t.table[s.calls[i].key := Stored(Entry(response.config, at + f), response, at)]))
  }

  ghost predicate Runs<C(!new)>(s: State<C>, steps: seq<Step<C>>, t: State<C>)
    decreases |steps|
  {
    if steps == [] then s == t
    else Enabled(s, steps[0]) && Runs(Apply(s, steps[0]), steps[1..], t)
  }

  /** Where an entry came from: a call for the same key that received exactly this response. */
  ghost predicate Genuine<C>(s: State<C>, key: string, x: Stored<C>) {
    && x.at <= s.now
    && x.response.directives.maxAge >= -1
    && Freshness(s.ttl, x.response.directives).Some?
    && x.entry == Entry(x.response.config, x.at + Freshness(s.ttl, x.response.directives).value)
    && Answered(s, key, x.response)
  }

  /** Some call for the key got this response from the origin. */
  ghost predicate Answered<C>(s: State<C>, key: string, r: Response<C>) {
    exists i | 0 <= i < |s.calls| :: s.calls[i] == Call(key, FromOrigin(r))
  }

  ghost predicate CallInv<C>(s: State<C>, c: Call<C>) {
    && (c.phase.Loaded? && c.phase.found.Some? ==> Genuine(s, c.key, c.phase.found.value))
    && (c.phase.Got? ==> c.phase.response.directives.maxAge >= -1)
    && (c.phase.Dated? ==> c.phase.at <= s.now && c.phase.response.directives.maxAge >= -1)
    && (c.phase.FromCache? ==>
          && Genuine(s, c.key, c.phase.source)
          && c.phase.config == c.phase.source.entry.config
          && c.phase.source.at <= c.phase.at < c.phase.source.entry.expiresAt)
  }

  ghost predicate Inv<C>(s: State<C>) {
    && (forall key <- s.table :: Genuine(s, key, s.table[key]))
    && (forall i | 0 <= i < |s.calls| :: CallInv(s, s.calls[i]))
  }

  lemma GenuineStays<C>(s: State<C>, step: Step<C>, key: string, x: Stored<C>)
    requires Enabled(s, step) && Genuine(s, key, x)
    ensures Genuine(Apply(s, step), key, x)
  {
    var i :| 0 <= i < |s.calls| && s.calls[i] == Call(key, FromOrigin(x.response));
    assert Apply(s, step).calls[i] == s.calls[i];
  }

  lemma CallInvHolds<C>(s: State<C>, step: Step<C>, i: nat)
    requires Enabled(s, step) && i < |Apply(s, step).calls|
    requires i < |s.calls| ==> CallInv(s, s.calls[i])
    requires forall key <- s.table :: Genuine(s, key, s.table[key]) && Genuine(Apply(s, step), key, s.table[key])
    requires i < |s.calls| && s.calls[i].phase.Loaded? && s.calls[i].phase.found.Some? ==>
               Genuine(Apply(s, step), s.calls[i].key, s.calls[i].phase.found.value)
    requires i < |s.calls| && s.calls[i].phase.FromCache? ==>
               Genuine(Apply(s, step), s.calls[i].key, s.calls[i].phase.source)
    ensures CallInv(Apply(s, step), Apply(s, step).calls[i])
  {
    hide Answered, Freshness;
  }

  lemma PutIsGenuine<C>(s: State<C>, i: nat)
    requires Enabled(s, Put(i)) && CallInv(s, s.calls[i])
    ensures var t := Apply(s, Put(i)); var key := s.calls[i].key;
      key in t.table && (key !in s.table || t.table[key] != s.table[key]) ==> Genuine(t, key, t.table[key])
  {
    var c := s.calls[i];
    hide Freshness;
    assert Apply(s, Put(i)).calls[i] == Call(c.key, FromOrigin(c.phase.response));
  }

  lemma TableAfter<C>(s: State<C>, step: Step<C>, key: string)
    requires Enabled(s, step) && key in Apply(s, step).table
    requires key in s.table ==> Genuine(Apply(s, step), key, s.table[key])
    requires step.Put? ==> CallInv(s, s.calls[step.i])
    ensures Genuine(Apply(s, step), key, Apply(s, step).table[key])
  {
    if step.Put? && key == s.calls[step.i].key {
      PutIsGenuine(s, step.i);
    }
    hide Genuine, CallInv, Freshness;
  }

  lemma InvHolds<C(!new)>(s: State<C>, step: Step<C>)
    requires Inv(s) && Enabled(s, step)
    ensures Inv(Apply(s, step))
  {
    var t := Apply(s, step);
    forall key, x | Genuine(s, key, x)
      ensures Genuine(t, key, x)
    {
      GenuineStays(s, step, key, x);
    }
    hide Apply, Genuine;
    forall key | key in t.table
      ensures Genuine(t, key, t.table[key])
    {
      TableAfter(s, step, key);
    }
    forall i | 0 <= i < |t.calls|
      ensures CallInv(t, t.calls[i])
    {
      CallInvHolds(s, step, i);
    }
  }

  lemma {:induction false} InvAlways<C(!new)>(s: State<C>, steps: seq<Step<C>>, t: State<C>)
    requires Inv(s) && Runs(s, steps, t)
    ensures Inv(t) && t.ttl == s.ttl
    decreases |steps|
  {
    if steps != [] {
      InvHolds(s, steps[0]);
      InvAlways(Apply(s, steps[0]), steps[1..], t);
    }
  }

  /** In every run: an answer from the cache is the document of a response the origin gave for the
      same key, one that allowed keeping it, dated less than the ttl and less than its max-age ago in
      ideal arithmetic; without a positive ttl there are no such answers. */
  lemma CachedAnswersAreFresh<C(!new)>(ttl: int64, start: int, steps: seq<Step<C>>, t: State<C>, i: nat)
    requires Runs(State(ttl, start, map[], []), steps, t) && i < |t.calls| && t.calls[i].phase.FromCache?
    ensures var FromCache(config, at, source) := t.calls[i].phase;
            && config == source.response.config
            && Answered(t, t.calls[i].key, source.response)
            && !source.response.directives.noStore && source.response.directives.maxAge != 0
            && 0 <= at - source.at < ttl
            && (source.response.directives.maxAge != -1 ==> at - source.at < source.response.directives.maxAge * SECOND)
  {
    InvAlways(State(ttl, start, map[], []), steps, t);
    assert CallInv(t, t.calls[i]);
    FreshnessIsBounded(ttl, t.calls[i].phase.source.response.directives);
  }

  lemma {:induction false} EntriesStay<C(!new)>(s: State<C>, steps: seq<Step<C>>, t: State<C>)
    requires Runs(s, steps, t)
    ensures s.table.Keys <= t.table.Keys && t.ttl == s.ttl
    decreases |steps|
  {
    if steps != [] {
      EntriesStay(Apply(s, steps[0]), steps[1..], t);
    }
  }

  lemma {:induction false} LoadedStays<C(!new)>(s: State<C>, steps: seq<Step<C>>, t: State<C>, i: nat)
    requires Runs(s, steps, t) && i < |s.calls| && s.calls[i].phase.Loaded? && Check(i) !in steps
    ensures i < |t.calls| && t.calls[i] == s.calls[i]
    decreases |steps|
  {
    if steps != [] {
      LoadedStays(Apply(s, steps[0]), steps[1..], t, i);
    }
  }

  /** In every run, whatever the other calls do in between: once a key has an entry, every later call
      for the key finds one, and is answered from the entry it found exactly when that has not expired
      by the time the call checks it. */
  lemma FreshEntryIsServed<C(!new)>(
      s: State<C>, before: seq<Step<C>>, u: State<C>, i: nat, after: seq<Step<C>>, t: State<C>)
    requires Runs(s, before, u) && Enabled(u, Load(i)) && u.calls[i].key in s.table
    requires Runs(Apply(u, Load(i)), after, t) && Check(i) !in after
    ensures u.calls[i].key in u.table && Enabled(t, Check(i))
    ensures var x := u.table[u.calls[i].key];
      Apply(t, Check(i)).calls[i].phase ==
      if t.now < x.entry.expiresAt then FromCache(x.entry.config, t.now, x) else Fetching
  {
    EntriesStay(s, before, u);
    LoadedStays(Apply(u, Load(i)), after, t, i);
  }
}
