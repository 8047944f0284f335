/** errors.go: problem documents (section 3.2 of RFC 7807) as text, with the token loop that reads them. */
module ProblemText {
  import opened Wrappers
  import opened Int64
  import opened Decimal
  import opened Json
  import opened JsonLocality
  import opened JsonText

  /** A member as read: its decoded key, its value, and the text of the value. */
  datatype Piece = Piece(key: string, value: Json, raw: string)

  datatype Next = Fail | End(at: nat) | One(piece: Piece, next: nat)

  /** One round of the decoder loop at i: just after the opening brace, or just after a value. */
  function NextMember(t: string, i: nat, first: bool): (r: Next)
    requires i <= |t|
    ensures r.One? ==> i < r.next <= |t|
    ensures r.End? ==> i <= r.at <= |t|
  {
    var j := SkipSpace(t, i);
    if j == |t| || t[j] == '}' || t[j] == ']' then End(j)
    else if !first && t[j] != ',' then Fail
    else
      var q := if first then j else SkipSpace(t, j + 1);
      if q == |t| || t[q] != '"' then Fail
      else
        var key := ParseChars(t, q + 1);
        if key.Bad? then Fail
        else
          var c := SkipSpace(t, key.next);
          if c == |t| || t[c] != ':' then Fail
          else
            var a := SkipSpace(t, c + 1);
            var v := ParseValue(t, a);
            if v.Bad? then Fail else One(Piece(key.value, v.value, t[a..v.next]), v.next)
  }

  datatype Scanned = Scanned(pieces: seq<Piece>, end: nat)

  /** The members from i on, and where the loop stops; None is an error. */
  function Scan(t: string, i: nat, first: bool): Option<Scanned>
    requires i <= |t|
    decreases |t| - i
  {
    match NextMember(t, i, first)
    case Fail => None
    case End(j) => Some(Scanned([], j))
    case One(p, n) => Prepend([p], Scan(t, n, false))
  }

  function Prepend(done: seq<Piece>, rest: Option<Scanned>): Option<Scanned> {
    if rest.None? then None else Some(Scanned(done + rest.value.pieces, rest.value.end))
  }

  /** Just after the opening brace. */
  function Start(t: string): (r: Option<nat>)
    ensures r.Some? ==> r.value <= |t|
  {
    var j := SkipSpace(t, 0);
    if j < |t| && t[j] == '{' then Some(j + 1) else None
  }

  /** extensionMembers: where the members end is not checked. */
  function MembersOf(t: string): Option<Scanned> {
    if Start(t).None? then None else Scan(t, Start(t).value, true)
  }

  /** The members of an object that ends in a brace. */
  function ObjectOf(t: string): Option<seq<Piece>> {
    var s := MembersOf(t);
    if s.Some? && s.value.end < |t| && t[s.value.end] == '}' then Some(s.value.pieces) else None
  }

  // ---------------------------------------------------------------- documents

  const TYPE := "type"
  const TITLE := "title"
  const STATUS := "status"
  const DETAIL := "detail"
  const INSTANCE := "instance"

  datatype Problem = Problem(uri: string, title: string, status: int64, detail: string, instance: string,
                             extensions: string)

  const ZERO := Problem("", "", 0, "", "", "")

  predicate Registered(key: string) {
    key == TYPE || key == TITLE || key == STATUS || key == DETAIL || key == INSTANCE
  }

  /** assignRegisteredProblemMember: null changes nothing, another type than the field's is an error. */
  function AssignOne(p: Problem, m: Piece): Option<Problem> {
    if !Registered(m.key) || m.value.Null? then Some(p)
    else if m.key == STATUS then
      if m.value.Num? && ParseInt(m.value.lit).Some? then Some(p.(status := ParseInt(m.value.lit).value)) else None
    else if !m.value.Str? then None
    else if m.key == TYPE then Some(p.(uri := m.value.s))
    else if m.key == TITLE then Some(p.(title := m.value.s))
    else if m.key == DETAIL then Some(p.(detail := m.value.s))
    else Some(p.(instance := m.value.s))
  }

  function Assign(p: Problem, ms: seq<Piece>): Option<Problem> {
    if ms == [] then Some(p)
    else
      var q := Assign(p, ms[..|ms| - 1]);
      if q.None? then None else AssignOne(q.value, ms[|ms| - 1])
  }

  function Extensions(ms: seq<Piece>): seq<Piece> {
    if ms == [] then []
    else Extensions(ms[..|ms| - 1]) + if Registered(ms[|ms| - 1].key) then [] else [ms[|ms| - 1]]
  }

  /** A member as both directions write it: the key as it is, without escapes. */
  function Entry(m: Piece): string {
    ['"'] + m.key + ['"', ':'] + m.raw
  }

  function Tail(ms: seq<Piece>): string {
    if ms == [] then "" else [','] + Entry(ms[0]) + Tail(ms[1..])
  }

  function Body(ms: seq<Piece>): string {
    if ms == [] then "" else Entry(ms[0]) + Tail(ms[1..])
  }

  function Write(ms: seq<Piece>): string {
    ['{'] + Body(ms) + ['}']
  }

  /** ProblemDetails.UnmarshalJSON */
  function Decode(t: string): Option<Problem> {
    match ObjectOf(t)
    case None => None
    case Some(ms) =>
      match Assign(ZERO, ms)
      case None => None
      case Some(p) => Some(p.(extensions := if Extensions(ms) == [] then "" else Write(Extensions(ms))))
  }

  function StringField(key: string, v: string): seq<Piece> {
    if v == "" then [] else [Piece(key, Str(v), Quote(v))]
  }

  function StatusField(n: int64): seq<Piece> {
    if n == 0 then [] else [Piece(STATUS, Num(Show(n)), Show(n))]
  }

  /** The registered members that are written: the non-zero ones, in the order of the specification. */
  function Fields(p: Problem): seq<Piece> {
    StringField(TYPE, p.uri) + StringField(TITLE, p.title) + StatusField(p.status)
    + StringField(DETAIL, p.detail) + StringField(INSTANCE, p.instance)
  }

  /** ProblemDetails.MarshalJSON */
  function Encode(p: Problem): Option<string> {
    if p.extensions == "" then Some(Write(Fields(p)))
    else
      match MembersOf(p.extensions)
      case None => None
      case Some(s) => Some(Write(Fields(p) + s.pieces))
  }

  // ---------------------------------------------------------------- reading entries back

  /** A key that a JSON string can hold as it is. */
  ghost predicate Plain(k: string) {
    forall i | 0 <= i < |k| :: ' ' <= k[i] && k[i] != '"' && k[i] != '\\'
  }

  /** The text of the value is that value and nothing else. */
  ghost predicate Sound(m: Piece) {
    ParseValue(m.raw, 0) == Good(m.value, |m.raw|)
  }

  lemma {:induction false} PlainReads(t: string, i: nat, k: string)
    requires Plain(k) && At(t, i, k + ['"'])
    ensures ParseChars(t, i) == Good(k, i + |k| + 1)
    decreases |k|
  {
    AtHead(t, i, k + ['"']);
    if k != "" {
      assert k + ['"'] == [k[0]] + (k[1..] + ['"']);
      AtConcat(t, i, [k[0]], k[1..] + ['"']);
      PlainReads(t, i + 1, k[1..]);
      assert [k[0]] + k[1..] == k;
    }
  }

  /** A key with a character that needs escaping is not read back as it was written: however much of
      the text the reader takes for the key, it never gets that key. Here `j` characters have been
      decoded from the first `s` of the key, all of them right. */
  lemma {:induction false} NeverCatchesUp(t: string, i: nat, k: string, j: nat, s: nat)
    requires At(t, i, k + ['"']) && j <= s <= |k| && (forall q | 0 <= q < s :: k[q] != '"')
    requires ParseChars(t, i + s).Good? && ParseChars(t, i + s).value == k[j..]
    ensures s == j && Plain(k[j..])
    decreases |k| - s
  {
    hide Unescape;
    assert (k + ['"'])[s] == t[i + s];
    if s < |k| {
      assert k[j..] != "";
      var c := if t[i + s] == '\\' then Unescape(t, i + s + 1) else Good(t[i + s], i + s + 1);
      assert c.value == k[j..][0] == k[j] && ParseChars(t, c.next).value == k[j..][1..] == k[j + 1..];
      if t[i + s] == '\\' {
        EscapeStaysInside(t, i, k, j, s);
      }
      NeverCatchesUp(t, i, k, j + 1, c.next - i);
      if t[i + s] == '\\' {
        assert false;
      }
    }
  }

  /** An escape in the key that decodes to the right character ends within the key, and takes up at
      least two of its characters. */
  lemma EscapeStaysInside(t: string, i: nat, k: string, j: nat, s: nat)
    requires At(t, i, k + ['"']) && j <= s < |k| && (forall q | 0 <= q < s :: k[q] != '"') && k[s] == '\\'
    requires Unescape(t, i + s + 1).Good? && Unescape(t, i + s + 1).value == k[j]
    ensures i + s + 2 <= Unescape(t, i + s + 1).next <= i + |k|
    ensures forall q | 0 <= q < Unescape(t, i + s + 1).next - i :: k[q] != '"'
  {
    var next := Unescape(t, i + s + 1).next;
    assert (k + ['"'])[|k|] == t[i + |k|] == '"';
    forall q | s < q <= |k| && q < next - i
      ensures (k + ['"'])[q] != '"'
    {
      assert (k + ['"'])[q] == t[i + q];
    }
    if next > i + |k| {
      assert false;
    }
    forall q | s < q < next - i
      ensures k[q] != '"'
    {
      assert (k + ['"'])[q] == t[i + q];
    }
  }

  lemma NoSpace(t: string, i: nat)
    requires i < |t| && !IsSpace(t[i])
    ensures SkipSpace(t, i) == i
  {
  }

  /** The text of a value, followed by something that cannot belong to it. */
  lemma RawReads(t: string, i: nat, m: Piece)
    requires Sound(m) && At(t, i, m.raw) && Ends(t, i + |m.raw|)
    ensures m.raw != "" && !IsSpace(m.raw[0])
    ensures ParseValue(t, i) == Good(m.value, i + |m.raw|) && t[i..i + |m.raw|] == m.raw
  {
    hide ParseChars, ParseElems, ParseMembers, NumberEnd;
    assert Agree(m.raw, 0, |m.raw|, t, i);
    ValueMoves(m.raw, 0, |m.raw|, t, i);
    SpaceIsNoValue(m.raw);
    forall p | 0 <= p < |m.raw|
      ensures t[i..i + |m.raw|][p] == m.raw[p]
    {
    }
  }

  lemma SpaceIsNoValue(raw: string)
    requires ParseValue(raw, 0).Good?
    ensures raw != "" && !IsSpace(raw[0])
  {
  }

  /** An entry with a plain key, read where it starts. */
  lemma EntryReads(t: string, i: nat, m: Piece)
    requires Plain(m.key) && Sound(m) && At(t, i, Entry(m)) && Ends(t, i + |Entry(m)|)
    ensures NextMember(t, i, true) == One(m, i + |Entry(m)|)
  {
    hide ParseValue, ParseChars, SkipSpace, Plain, Sound;
    var k := m.key;
    assert Entry(m) == ['"'] + ((k + ['"']) + ([':'] + m.raw));
    AtConcat(t, i, ['"'], (k + ['"']) + ([':'] + m.raw));
    AtConcat(t, i + 1, k + ['"'], [':'] + m.raw);
    AtConcat(t, i + |k| + 2, [':'], m.raw);
    AtHead(t, i, ['"']);
    AtHead(t, i + |k| + 2, [':']);
    RawReads(t, i + |k| + 3, m);
    AtHead(t, i + |k| + 3, m.raw);
    PlainReads(t, i + 1, k);
    NoSpace(t, i);
    NoSpace(t, i + |k| + 2);
    NoSpace(t, i + |k| + 3);
  }

  /** After a value, a comma and an entry are read as the entry alone is at the start. */
  lemma CommaReads(t: string, i: nat)
    requires i + 1 < |t| && t[i] == ',' && t[i + 1] == '"'
    ensures NextMember(t, i, false) == NextMember(t, i + 1, true)
  {
    hide ParseValue, ParseChars;
    NoSpace(t, i);
    NoSpace(t, i + 1);
  }

  lemma EndReads(t: string, i: nat, first: bool)
    requires i < |t| && t[i] == '}'
    ensures Scan(t, i, first) == Some(Scanned([], i))
  {
    NoSpace(t, i);
  }

  ghost predicate Fine(ms: seq<Piece>) {
    forall i | 0 <= i < |ms| :: Plain(ms[i].key) && Sound(ms[i])
  }

  ghost predicate AllSound(ms: seq<Piece>) {
    forall i | 0 <= i < |ms| :: Sound(ms[i])
  }

  lemma TailUnfolds(ms: seq<Piece>)
    requires ms != []
    ensures Tail(ms) + ['}'] == [','] + (Entry(ms[0]) + (Tail(ms[1..]) + ['}']))
  {
    hide Entry;
  }

  /** The shape of what is left to read after a value. */
  lemma TailParts(t: string, i: nat, ms: seq<Piece>)
    requires ms != [] && At(t, i, Tail(ms) + ['}'])
    ensures At(t, i + 1, Entry(ms[0])) && At(t, i + 1 + |Entry(ms[0])|, Tail(ms[1..]) + ['}'])
    ensures i + 1 < |t| && t[i] == ',' && t[i + 1] == '"' && Ends(t, i + 1 + |Entry(ms[0])|)
  {
    hide Entry, Tail, At;
    var e, rest := Entry(ms[0]), Tail(ms[1..]) + ['}'];
    TailUnfolds(ms);
    EntryIsQuoted(ms[0]);
    TailStarts(ms[1..]);
    AtConcat(t, i, [','], e + rest);
    AtConcat(t, i + 1, e, rest);
    AtHead(t, i, [',']);
    AtHead(t, i + 1, e);
    AtHead(t, i + 1 + |e|, rest);
  }

  lemma {:induction false} TailReads(t: string, i: nat, ms: seq<Piece>)
    requires Fine(ms) && At(t, i, Tail(ms) + ['}'])
    ensures Scan(t, i, false) == Some(Scanned(ms, i + |Tail(ms)|)) && At(t, i + |Tail(ms)|, ['}'])
    decreases |ms|
  {
    hide NextMember, At, Entry;
    if ms == [] {
      AtHead(t, i, Tail(ms) + ['}']);
      EndReads(t, i, false);
      assert Tail(ms) + ['}'] == ['}'];
    } else {
      TailParts(t, i, ms);
      CommaReads(t, i);
      EntryReads(t, i + 1, ms[0]);
      TailReads(t, i + 1 + |Entry(ms[0])|, ms[1..]);
      assert [ms[0]] + ms[1..] == ms;
    }
  }

  /** What Write wrote is read back, member by member. */
  lemma WriteReads(ms: seq<Piece>)
    requires Fine(ms)
    ensures MembersOf(Write(ms)) == Some(Scanned(ms, |Write(ms)| - 1)) && ObjectOf(Write(ms)) == Some(ms)
  {
    hide NextMember, At, Entry, Start, MembersOf, Tail;
    var t := Write(ms);
    WrittenStart(ms);
    if ms == [] {
      EndReads(t, 1, true);
    } else {
      WriteParts(ms);
      EntryReads(t, 1, ms[0]);
      TailReads(t, 1 + |Entry(ms[0])|, ms[1..]);
      assert [ms[0]] + ms[1..] == ms;
    }
  }

  lemma AtSelf(t: string)
    ensures At(t, 0, t)
  {
  }

  lemma EntryIsQuoted(m: Piece)
    ensures Entry(m) != "" && Entry(m)[0] == '"'
  {
  }

  lemma TailStarts(ms: seq<Piece>)
    ensures var rest := Tail(ms) + ['}']; rest != "" && (rest[0] == ',' || rest[0] == '}')
  {
    hide Entry;
  }

  lemma WriteParts(ms: seq<Piece>)
    requires ms != []
    ensures var t := Write(ms); var i := 1 + |Entry(ms[0])|;
      At(t, 1, Entry(ms[0])) && At(t, i, Tail(ms[1..]) + ['}']) && Ends(t, i) && t[1] == '"'
  {
    hide Entry, Tail, At;
    var t, e, tail := Write(ms), Entry(ms[0]), Tail(ms[1..]);
    var rest := tail + ['}'];
    Regroup(['{'], e + tail, ['}']);
    Regroup(e, tail, ['}']);
    EntryIsQuoted(ms[0]);
    AtSelf(t);
    AtConcat(t, 0, ['{'], e + rest);
    AtConcat(t, 1, e, rest);
    AtHead(t, 1, e);
    TailStarts(ms[1..]);
    AtHead(t, 1 + |e|, rest);
  }

  /** Whatever is read is sound. */
  lemma {:induction false} ScanIsSound(t: string, i: nat, first: bool)
    requires i <= |t|
    ensures Scan(t, i, first).Some? ==> AllSound(Scan(t, i, first).value.pieces)
    decreases |t| - i
  {
    hide NextMember, Sound;
    match NextMember(t, i, first) {
      case One(m, n) =>
        MemberIsSound(t, i, first);
        ScanIsSound(t, n, false);
      case _ =>
    }
  }

  lemma MemberIsSound(t: string, i: nat, first: bool)
    requires i <= |t| && NextMember(t, i, first).One?
    ensures Sound(NextMember(t, i, first).piece)
  {
    hide ParseValue, ParseChars, SkipSpace;
    var r := NextMember(t, i, first);
    var j := SkipSpace(t, i);
    var q := if first then j else SkipSpace(t, j + 1);
    var c := SkipSpace(t, ParseChars(t, q + 1).next);
    var a: int := SkipSpace(t, c + 1);
    assert Agree(t, a, r.next, t[a..r.next], -a);
    ValueMoves(t, a, r.next, t[a..r.next], -a);
  }

  /** Reading back exactly what was written takes plain keys. */
  lemma {:induction false} TailNeedsPlainKeys(t: string, i: nat, ms: seq<Piece>)
    requires AllSound(ms) && At(t, i, Tail(ms) + ['}'])
    requires Scan(t, i, false).Some? && Scan(t, i, false).value.pieces == ms
    ensures forall k | 0 <= k < |ms| :: Plain(ms[k].key)
    decreases |ms|
  {
    hide NextMember, At, Plain, Sound, Entry;
    if ms != [] {
      TailParts(t, i, ms);
      CommaReads(t, i);
      var r := NextMember(t, i, false);
      assert r.One? && r.piece == ms[0] && Scan(t, r.next, false).value.pieces == ms[1..];
      KeyIsPlain(t, i + 1, ms[0]);
      EntryReads(t, i + 1, ms[0]);
      TailNeedsPlainKeys(t, r.next, ms[1..]);
    }
  }

  lemma KeyIsPlain(t: string, i: nat, m: Piece)
    requires At(t, i, Entry(m)) && NextMember(t, i, true).One? && NextMember(t, i, true).piece.key == m.key
    ensures Plain(m.key)
  {
    hide ParseChars, ParseValue;
    var k := m.key;
    assert Entry(m) == ['"'] + ((k + ['"']) + ([':'] + m.raw));
    AtConcat(t, i, ['"'], (k + ['"']) + ([':'] + m.raw));
    AtConcat(t, i + 1, k + ['"'], [':'] + m.raw);
    AtHead(t, i, ['"']);
    NoSpace(t, i);
    assert k[0..] == k;
    NeverCatchesUp(t, i + 1, k, 0, 0);
  }

  ghost predicate PlainKeys(ms: seq<Piece>) {
    forall k | 0 <= k < |ms| :: Plain(ms[k].key)
  }

  lemma WrittenStart(ms: seq<Piece>)
    ensures Start(Write(ms)) == Some(1) && MembersOf(Write(ms)) == Scan(Write(ms), 1, true)
  {
    hide Scan, Body;
    NoSpace(Write(ms), 0);
  }

  lemma ReadingTakesPlainKeys(ms: seq<Piece>)
    requires AllSound(ms) && ms != []
    requires MembersOf(Write(ms)).Some? && MembersOf(Write(ms)).value.pieces == ms
    ensures PlainKeys(ms)
  {
    hide NextMember, At, Plain, Sound, Entry, MembersOf, Body, Tail, Write;
    var t := Write(ms);
    WrittenStart(ms);
    WriteParts(ms);
    var r := NextMember(t, 1, true);
    assert r.One? && r.piece == ms[0] && Scan(t, r.next, false).value.pieces == ms[1..];
    KeyIsPlain(t, 1, ms[0]);
    EntryReads(t, 1, ms[0]);
    TailNeedsPlainKeys(t, r.next, ms[1..]);
  }

  lemma WrittenIsReadIff(ms: seq<Piece>)
    requires AllSound(ms)
    ensures MembersOf(Write(ms)).Some? && MembersOf(Write(ms)).value.pieces == ms <==> PlainKeys(ms)
  {
    hide MembersOf, Plain, Sound, Write;
    if PlainKeys(ms) {
      WriteReads(ms);
    }
    if MembersOf(Write(ms)).Some? && MembersOf(Write(ms)).value.pieces == ms && ms != [] {
      ReadingTakesPlainKeys(ms);
    }
  }

  lemma {:induction false} ExtensionsAreAmong(ms: seq<Piece>)
    ensures AllSound(ms) ==> AllSound(Extensions(ms))
    ensures forall k | 0 <= k < |Extensions(ms)| :: !Registered(Extensions(ms)[k].key)
    decreases |ms|
  {
    hide Sound, Registered;
    if ms != [] {
      ExtensionsAreAmong(ms[..|ms| - 1]);
    }
  }

  lemma DecodeParts(t: string)
    ensures Decode(t).Some? ==>
              && ObjectOf(t).Some? && Assign(ZERO, ObjectOf(t).value).Some? && AllSound(ObjectOf(t).value)
              && var e := Extensions(ObjectOf(t).value);
              Decode(t) == Some(Assign(ZERO, ObjectOf(t).value).value.(extensions := if e == [] then "" else Write(e)))
  {
    hide Scan, Assign, Extensions, Write;
    if Start(t).Some? {
      ScanIsSound(t, Start(t).value, true);
    }
  }

  // ---------------------------------------------------------------- the main results

  /** After decoding, exactly when the extension keys need no escaping does the Extensions text still
      hold the extension members of the document, in their order, with their values character by
      character. */
  lemma ExtensionsSurviveIff(t: string)
    ensures Decode(t).Some? ==>
              var p, e := Decode(t).value, Extensions(ObjectOf(t).value);
              && (p.extensions == "" <==> e == [])
              && (e != [] ==>
                    ((MembersOf(p.extensions).Some? && MembersOf(p.extensions).value.pieces == e) <==> PlainKeys(e)))
  {
    hide Scan, Assign, Extensions, Plain, Sound, NextMember, At, Entry, MembersOf, Decode;
    DecodeParts(t);
    if Decode(t).Some? {
      var e := Extensions(ObjectOf(t).value);
      ExtensionsAreAmong(ObjectOf(t).value);
      WrittenIsReadIff(e);
    }
  }

  lemma ValueSound(v: Json)
    requires WellFormed(v)
    ensures ParseValue(Print(v), 0) == Good(v, |Print(v)|)
  {
    hide ParseValue, Print;
    PrintRoundTrip(v);
  }

  lemma ShowIsNumber(n: int)
    ensures IsNumber(Show(n))
  {
    hide Digits, DecimalValue;
    var m := if n < 0 then -n else n;
    DigitsRoundTrip(m);
    var s := Show(n);
    var i := if n < 0 then 1 else 0;
    assert s[i..] == Digits(m);
    assert forall p | i <= p < |s| :: s[p] == Digits(m)[p - i];
    IntegerIsNumber(s, i);
  }

  /** Digits without a leading zero, perhaps after a minus sign, are a JSON number. */
  lemma IntegerIsNumber(s: string, i: nat)
    requires i < |s| && i <= 1 && (i == 1 ==> s[0] == '-')
    requires (forall p | i <= p < |s| :: IsDigit(s[p])) && (s[i] == '0' ==> |s| == i + 1)
    ensures IsNumber(s)
  {
    AllDigits(s, i);
    AllDigits(s, i + 1);
    hide DigitsEnd;
  }

  lemma {:induction false} AllDigits(s: string, i: nat)
    requires i <= |s| && forall p | i <= p < |s| :: IsDigit(s[p])
    ensures DigitsEnd(s, i) == |s|
    decreases |s| - i
  {
    if i < |s| {
      AllDigits(s, i + 1);
    }
  }

  lemma StringFieldFine(key: string, v: string)
    requires Plain(key)
    ensures Fine(StringField(key, v))
  {
    hide ParseValue, MarshalledAll;
    ValueSound(Str(v));
  }

  lemma StatusFieldFine(n: int64)
    ensures Fine(StatusField(n))
  {
    hide ParseValue, Show, NumberEnd;
    ShowIsNumber(n);
    ValueSound(Num(Show(n)));
  }

  lemma FineConcat(a: seq<Piece>, b: seq<Piece>)
    ensures Fine(a) && Fine(b) ==> Fine(a + b)
  {
    hide Plain, Sound;
  }

  lemma FieldsFine(p: Problem)
    ensures Fine(Fields(p))
  {
    hide StringField, StatusField, Fine;
    StringFieldFine(TYPE, p.uri);
    StringFieldFine(TITLE, p.title);
    StatusFieldFine(p.status);
    StringFieldFine(DETAIL, p.detail);
    StringFieldFine(INSTANCE, p.instance);
    var a, b := StringField(TYPE, p.uri), StringField(TITLE, p.title);
    FineConcat(a, b);
    FineConcat(a + b, StatusField(p.status));
    FineConcat(a + b + StatusField(p.status), StringField(DETAIL, p.detail));
    FineConcat(a + b + StatusField(p.status) + StringField(DETAIL, p.detail), StringField(INSTANCE, p.instance));
  }

  lemma {:induction false} AssignConcat(p: Problem, a: seq<Piece>, b: seq<Piece>)
    ensures Assign(p, a + b) == if Assign(p, a).None? then None else Assign(Assign(p, a).value, b)
    decreases |b|
  {
    hide AssignOne;
    if b == [] {
      assert a + b == a;
    } else {
      var init := b[..|b| - 1];
      assert (a + b)[..|a + b| - 1] == a + init;
      AssignConcat(p, a, init);
    }
  }

  lemma {:induction false} AssignExtensions(p: Problem, e: seq<Piece>)
    requires forall k | 0 <= k < |e| :: !Registered(e[k].key)
    ensures Assign(p, e) == Some(p) && Extensions(e) == e
    decreases |e|
  {
    hide Registered;
    if e != [] {
      AssignExtensions(p, e[..|e| - 1]);
      assert e[..|e| - 1] + [e[|e| - 1]] == e;
    }
  }

  lemma {:induction false} ExtensionsConcat(a: seq<Piece>, b: seq<Piece>)
    ensures Extensions(a + b) == Extensions(a) + Extensions(b)
    decreases |b|
  {
    hide Registered;
    if b == [] {
      assert a + b == a;
    } else {
      var init := b[..|b| - 1];
      assert (a + b)[..|a + b| - 1] == a + init;
      ExtensionsConcat(a, init);
    }
  }

  /** One registered member puts its field in place. */
  lemma StringFieldAssigns(p: Problem, key: string, v: string)
    requires Registered(key) && key != STATUS
    ensures var ms := StringField(key, v);
      && Extensions(ms) == []
      && Assign(p, ms) == Some(
           if v == "" then p
           else if key == TYPE then p.(uri := v)
           else if key == TITLE then p.(title := v)
           else if key == DETAIL then p.(detail := v)
           else p.(instance := v))
  {
    hide MarshalledAll;
    var ms := StringField(key, v);
    if v != "" {
      assert ms[..0] == [];
    }
  }

  lemma StatusFieldAssigns(p: Problem, n: int64)
    ensures var ms := StatusField(n);
            Extensions(ms) == [] && Assign(p, ms) == Some(if n == 0 then p else p.(status := n))
  {
    hide ParseInt, Show;
    var ms := StatusField(n);
    if n != 0 {
      assert ms[..0] == [];
      ParseIntRoundTrip(n);
    }
  }

  lemma FieldsAssign(p: Problem)
    ensures Assign(ZERO, Fields(p)) == Some(p.(extensions := "")) && Extensions(Fields(p)) == []
  {
    hide StringField, StatusField, Assign, Extensions;
    var a, b, c, d, e := StringField(TYPE, p.uri), StringField(TITLE, p.title), StatusField(p.status),
      StringField(DETAIL, p.detail), StringField(INSTANCE, p.instance);
    var p1 := ZERO.(uri := p.uri);
    var p2 := p1.(title := p.title);
    var p3 := p2.(status := p.status);
    var p4 := p3.(detail := p.detail);
    StringFieldAssigns(ZERO, TYPE, p.uri);
    StringFieldAssigns(p1, TITLE, p.title);
    StatusFieldAssigns(p2, p.status);
    StringFieldAssigns(p3, DETAIL, p.detail);
    StringFieldAssigns(p4, INSTANCE, p.instance);
    AssignConcat(ZERO, a, b);
    AssignConcat(ZERO, a + b, c);
    AssignConcat(ZERO, a + b + c, d);
    AssignConcat(ZERO, a + b + c + d, e);
    ExtensionsConcat(a, b);
    ExtensionsConcat(a + b, c);
    ExtensionsConcat(a + b + c, d);
    ExtensionsConcat(a + b + c + d, e);
  }

  /** Decoding the written form of a document and its extension members. */
  lemma DecodeWritten(p: Problem, e: seq<Piece>)
    requires AllSound(e) && PlainKeys(e) && (forall k | 0 <= k < |e| :: !Registered(e[k].key))
    ensures Decode(Write(Fields(p) + e)) == Some(p.(extensions := if e == [] then "" else Write(e)))
  {
    hide Scan, Assign, Extensions, Plain, Sound, NextMember, At, Entry, MembersOf, Fields, Write, Encode, ObjectOf,
         Registered;
    FieldsFine(p);
    FineConcat(Fields(p), e);
    WriteReads(Fields(p) + e);
    FieldsAssign(p);
    AssignConcat(ZERO, Fields(p), e);
    AssignExtensions(p.(extensions := ""), e);
    ExtensionsConcat(Fields(p), e);
    assert [] + e == e;
  }

  // ---------------------------------------------------------------- how much text reading takes

  /** Reading takes at least a character for each one read, and more than that if there is an escape. */
  lemma {:induction false} CharsLength(t: string, i: nat)
    requires i <= |t| && ParseChars(t, i).Good?
    ensures |ParseChars(t, i).value| + 1 <= ParseChars(t, i).next - i
    ensures |ParseChars(t, i).value| + 1 == ParseChars(t, i).next - i ==> Plain(ParseChars(t, i).value)
    decreases |t| - i
  {
    hide Unescape;
    if t[i] != '"' {
      var c := if t[i] == '\\' then Unescape(t, i + 1) else Good(t[i], i + 1);
      CharsLength(t, c.next);
      assert ParseChars(t, i).value[1..] == ParseChars(t, c.next).value;
    }
  }

  lemma MemberLength(t: string, i: nat, first: bool)
    requires i <= |t| && NextMember(t, i, first).One?
    ensures var r := NextMember(t, i, first); var comma := if first then 0 else 1;
      && |Entry(r.piece)| + comma <= r.next - i
      && (|Entry(r.piece)| + comma == r.next - i ==> Plain(r.piece.key))
  {
    hide ParseChars, ParseValue, SkipSpace, Plain;
    var j := SkipSpace(t, i);
    var q := if first then j else SkipSpace(t, j + 1);
    CharsLength(t, q + 1);
  }

  /** The text of members at the start of an object, or after another member. */
  function Text(ms: seq<Piece>, first: bool): string {
    if first then Body(ms) else Tail(ms)
  }

  /** Writing what was read never takes more text than was read, and as much only if no key had an
      escape. */
  lemma {:induction false} ScanLength(t: string, i: nat, first: bool)
    requires i <= |t| && Scan(t, i, first).Some?
    ensures var r := Scan(t, i, first).value;
      |Text(r.pieces, first)| <= r.end - i && (|Text(r.pieces, first)| == r.end - i ==> PlainKeys(r.pieces))
    ensures Scan(t, i, first).value.end <= |t|
    decreases |t| - i
  {
    hide NextMember, Plain, Entry;
    match NextMember(t, i, first) {
      case One(m, n) =>
        MemberLength(t, i, first);
        ScanLength(t, n, false);
        var rest := Scan(t, n, false).value.pieces;
        assert ([m] + rest)[1..] == rest;
      case End(j) =>
        NextEnds(t, i, first);
      case _ =>
    }
  }

  lemma NextEnds(t: string, i: nat, first: bool)
    requires i <= |t| && NextMember(t, i, first).End?
    ensures i <= NextMember(t, i, first).at <= |t|
  {
  }

  lemma {:induction false} TailConcat(a: seq<Piece>, b: seq<Piece>)
    ensures Tail(a + b) == Tail(a) + Tail(b)
    decreases |a|
  {
    hide Entry;
    if a == [] {
      assert a + b == b;
    } else {
      assert (a + b)[1..] == a[1..] + b;
      TailConcat(a[1..], b);
      Regroup([','] + Entry(a[0]), Tail(a[1..]), Tail(b));
    }
  }

  lemma TextLength(ms: seq<Piece>, first: bool)
    ensures |Text(ms, first)| == |Tail(ms)| - if first && ms != [] then 1 else 0
    ensures if ms == [] then |Tail(ms)| == 0 else |Tail(ms)| > 1
    ensures |Write(ms)| == |Text(ms, true)| + 2
  {
  }

  /** Members with plain keys in front are read back, whatever comes after them. */
  lemma {:induction false} TailPrefix(t: string, i: nat, f: seq<Piece>, rest: seq<Piece>)
    requires Fine(f) && At(t, i, Tail(f + rest) + ['}'])
    ensures i + |Tail(f)| <= |t| && Scan(t, i, false) == Prepend(f, Scan(t, i + |Tail(f)|, false))
    decreases |f|
  {
    hide NextMember, At, Entry, Plain, Sound;
    if f == [] {
      AtIsInside(t, i, Tail(f + rest) + ['}']);
      PrependNothing(Scan(t, i, false));
    } else {
      assert (f + rest)[1..] == f[1..] + rest;
      TailParts(t, i, f + rest);
      CommaReads(t, i);
      EntryReads(t, i + 1, f[0]);
      var n := i + 1 + |Entry(f[0])|;
      TailPrefix(t, n, f[1..], rest);
      PrependOne(f[0], f[1..], Scan(t, n + |Tail(f[1..])|, false));
      assert [f[0]] + f[1..] == f;
    }
  }

  lemma AtIsInside(t: string, i: nat, w: string)
    requires At(t, i, w)
    ensures i + |w| <= |t|
  {
  }

  lemma PrependNothing(rest: Option<Scanned>)
    ensures Prepend([], rest) == rest
  {
    if rest.Some? {
      assert [] + rest.value.pieces == rest.value.pieces;
    }
  }

  lemma PrependOne(m: Piece, ms: seq<Piece>, rest: Option<Scanned>)
    ensures Prepend([m], Prepend(ms, rest)) == Prepend([m] + ms, rest)
  {
    if rest.Some? {
      assert [m] + (ms + rest.value.pieces) == ([m] + ms) + rest.value.pieces;
    }
  }

  lemma WritePrefix(f: seq<Piece>, rest: seq<Piece>)
    requires Fine(f)
    ensures var t, i := Write(f + rest), 1 + |Text(f, true)|;
      i <= |t| && MembersOf(t) == Prepend(f, Scan(t, i, f == []))
  {
    hide NextMember, At, Entry, Plain, Sound, MembersOf, Scan;
    var t := Write(f + rest);
    WrittenStart(f + rest);
    if f == [] {
      PrependNothing(Scan(t, 1, true));
    } else {
      assert (f + rest)[0] == f[0] && (f + rest)[1..] == f[1..] + rest;
      WriteParts(f + rest);
      EntryReads(t, 1, f[0]);
      var n := 1 + |Entry(f[0])|;
      TailPrefix(t, n, f[1..], rest);
      FirstThen(t, f[0], n);
      PrependOne(f[0], f[1..], Scan(t, n + |Tail(f[1..])|, false));
      assert [f[0]] + f[1..] == f;
    }
  }

  lemma FirstThen(t: string, m: Piece, n: nat)
    requires 1 <= |t| && NextMember(t, 1, true) == One(m, n)
    ensures Scan(t, 1, true) == Prepend([m], Scan(t, n, false))
  {
    hide NextMember;
  }

  /** `ms` is what reading Write(e) gives, and `q` is what reading Write(f + ms) gives after f. If q is
      e, or longer than e by more than a character, then nothing was changed on the way: the keys are
      plain and ms is e. */
  lemma ThereAndBack(f: seq<Piece>, e: seq<Piece>, ms: seq<Piece>, q: seq<Piece>)
    requires Fine(f) && e != [] && AllSound(e) && AllSound(ms)
    requires MembersOf(Write(e)).Some? && MembersOf(Write(e)).value.pieces == ms
    requires ObjectOf(Write(f + ms)) == Some(f + q)
    requires q == e || |Tail(q)| > |Tail(e)| + 1
    ensures ms == e && q == e && PlainKeys(e)
  {
    hide NextMember, At, Entry, Plain, Sound, Scan, Body, Tail, Write;
    OutLength(e, ms);
    BackLength(f, ms, q);
    if |Tail(ms)| == |Tail(e)| + 1 {
      PlainComesBack(f, ms, q);
    }
    WriteReads(e);
  }

  lemma PlainComesBack(f: seq<Piece>, ms: seq<Piece>, q: seq<Piece>)
    requires Fine(f) && AllSound(ms) && PlainKeys(ms) && ObjectOf(Write(f + ms)) == Some(f + q)
    ensures q == ms
  {
    hide Plain, Sound, ObjectOf, Write;
    FineConcat(f, ms);
    WriteReads(f + ms);
    assert (f + ms)[|f|..] == ms && (f + q)[|f|..] == q;
  }

  lemma OutLength(e: seq<Piece>, ms: seq<Piece>)
    requires e != [] && MembersOf(Write(e)).Some? && MembersOf(Write(e)).value.pieces == ms
    ensures |Tail(ms)| <= |Tail(e)| + 1 && (|Tail(ms)| == |Tail(e)| + 1 ==> PlainKeys(ms))
  {
    hide Entry, Plain, Scan, Body, Tail, Write;
    WrittenStart(e);
    ScanLength(Write(e), 1, true);
    TextLength(e, true);
    TextLength(ms, true);
  }

  lemma BackLength(f: seq<Piece>, ms: seq<Piece>, q: seq<Piece>)
    requires Fine(f) && ObjectOf(Write(f + ms)) == Some(f + q)
    ensures |Tail(q)| <= |Tail(ms)| && (|Tail(q)| == |Tail(ms)| ==> PlainKeys(q))
  {
    hide Entry, Plain, Scan, Body, Tail, Write;
    var t, i := Write(f + ms), 1 + |Text(f, true)|;
    WritePrefix(f, ms);
    var r := Scan(t, i, f == []);
    assert (f + r.value.pieces)[|f|..] == r.value.pieces && (f + q)[|f|..] == q;
    ScanLength(t, i, f == []);
    TailConcat(f, ms);
    TextLength(f + ms, true);
    TextLength(f, true);
    TextLength(ms, f == []);
    TextLength(q, f == []);
  }

  // ---------------------------------------------------------------- the round trips

  /** Encoding what was decoded: exactly when the extension keys need no escaping does the new document
      have the members of the old one, that is, the non-zero registered members in their fixed order
      and then every extension member in its order with its value unchanged. */
  lemma EncodeAfterDecode(t: string)
    ensures Decode(t).Some? ==>
              var p, e := Decode(t).value, Extensions(ObjectOf(t).value);
              && (Encode(p).Some? && ObjectOf(Encode(p).value) == Some(Fields(p) + e) <==> PlainKeys(e))
              && (PlainKeys(e) ==> Encode(p) == Some(Write(Fields(p) + e)))
  {
    hide Scan, Assign, Extensions, Plain, Sound, NextMember, At, Entry, MembersOf, Fields, Decode, ObjectOf, Write;
    DecodeParts(t);
    ExtensionsSurviveIff(t);
    if Decode(t).Some? {
      ExtensionsAreAmong(ObjectOf(t).value);
      var p, e := Decode(t).value, Extensions(ObjectOf(t).value);
      assert Fields(p) + [] == Fields(p);
      FieldsFine(p);
      if PlainKeys(e) {
        FineConcat(Fields(p), e);
        WriteReads(e);
        WriteReads(Fields(p) + e);
      } else if Encode(p).Some? && ObjectOf(Encode(p).value) == Some(Fields(p) + e) {
        MembersAreSound(p.extensions);
        ThereAndBack(Fields(p), e, MembersOf(p.extensions).value.pieces, e);
      }
    }
  }

  lemma MembersAreSound(t: string)
    ensures MembersOf(t).Some? ==> AllSound(MembersOf(t).value.pieces)
  {
    hide Scan;
    if Start(t).Some? {
      ScanIsSound(t, Start(t).value, true);
    }
  }

  ghost predicate NoneRegistered(ms: seq<Piece>) {
    forall k | 0 <= k < |ms| :: !Registered(ms[k].key)
  }

  /** The Extensions text is absent, or is itself what writing its members gives, with at least one
      member and none under a registered key. */
  ghost predicate Restorable(extensions: string) {
    extensions == "" ||
    (MembersOf(extensions).Some? &&
     var ms := MembersOf(extensions).value.pieces;
     ms != [] && PlainKeys(ms) && NoneRegistered(ms) && extensions == Write(ms))
  }

  /** Exactly which documents, decoded or built by hand, decode back to themselves from their encoding. */
  lemma DecodeAfterEncode(p: Problem)
    ensures Encode(p).Some? && Decode(Encode(p).value) == Some(p) <==> Restorable(p.extensions)
  {
    hide Scan, Assign, Extensions, Plain, Sound, NextMember, At, Entry, MembersOf, Fields, Decode, ObjectOf, Write,
         Registered;
    if p.extensions == "" {
      DecodeWritten(p, []);
      assert Fields(p) + [] == Fields(p);
    } else {
      MembersAreSound(p.extensions);
      if Restorable(p.extensions) {
        DecodeWritten(p, MembersOf(p.extensions).value.pieces);
      } else if Encode(p).Some? && Decode(Encode(p).value) == Some(p) {
        RoundTripNeeds(p);
      }
    }
  }

  lemma RoundTripNeeds(p: Problem)
    requires p.extensions != "" && Encode(p).Some? && Decode(Encode(p).value) == Some(p)
    ensures Restorable(p.extensions)
  {
    hide Scan, Assign, Extensions, Plain, Sound, NextMember, At, Entry, MembersOf, Fields, Decode, Write, Registered,
         ObjectOf;
    MembersAreSound(p.extensions);
    FieldsFine(p);
    FieldsAssign(p);
    var f, ms := Fields(p), MembersOf(p.extensions).value.pieces;
    DecodeParts(Write(f + ms));
    var q := AfterFields(f, ms);
    ExtensionsConcat(f, q);
    assert [] + Extensions(q) == Extensions(q);
    var e := Extensions(q);
    SoundTail(f, q);
    ExtensionsAreAmong(q);
    ExtensionsAreShorter(q);
    ThereAndBack(f, e, ms, q);
  }

  lemma SoundTail(f: seq<Piece>, q: seq<Piece>)
    requires AllSound(f + q)
    ensures AllSound(q)
  {
    hide Sound;
    assert forall k | 0 <= k < |q| :: (f + q)[|f| + k] == q[k];
  }

  /** What is read after the fields. */
  lemma AfterFields(f: seq<Piece>, ms: seq<Piece>) returns (q: seq<Piece>)
    requires Fine(f) && ObjectOf(Write(f + ms)).Some?
    ensures ObjectOf(Write(f + ms)) == Some(f + q)
  {
    hide Scan, Write;
    WritePrefix(f, ms);
    q := Scan(Write(f + ms), 1 + |Text(f, true)|, f == []).value.pieces;
  }

  /** Dropping registered members takes away more than one character, if it takes away anything. */
  lemma {:induction false} ExtensionsAreShorter(q: seq<Piece>)
    ensures Extensions(q) == q || |Tail(q)| > |Tail(Extensions(q))| + 1
    decreases |q|
  {
    hide Registered;
    if q != [] {
      var init, last := q[..|q| - 1], q[|q| - 1];
      ExtensionsAreShorter(init);
      assert init + [last] == q && Extensions(init) + [] == Extensions(init);
      TailGrows(init, last);
      TailGrows(Extensions(init), last);
    }
  }

  // ---------------------------------------------------------------- a document that does not survive

  /** {"a\"b":1} and the one extension member it has. */
  const QUOTED := ['{', '"', 'a', '\\', '"', 'b', '"', ':', '1', '}']
  const MEMBER := Piece(['a', '"', 'b'], Num(['1']), ['1'])

  lemma QuotedKey()
    ensures ParseChars(QUOTED, 2) == Good(MEMBER.key, 7)
  {
    hide ParseChars;
    var cs := [Raw('a'), Short('"'), Raw('b')];
    assert cs[1..] == [Short('"'), Raw('b')] && cs[1..][1..] == [Raw('b')] && cs[1..][1..][1..] == [];
    assert SpelledAll(cs) == ['a', '\\', '"', 'b'] && DenotedAll(cs) == MEMBER.key;
    assert At(QUOTED, 2, SpelledAll(cs) + ['"']);
    CharsRead(QUOTED, 2, cs);
  }

  lemma QuotedValue()
    ensures ParseValue(QUOTED, 8) == Good(MEMBER.value, 9)
  {
    hide ParseValue;
    assert IsNumber(['1']) && At(QUOTED, 8, ['1']);
    NumberReads(['1'], QUOTED, 8);
  }

  lemma QuotedReads()
    ensures ObjectOf(QUOTED) == Some([MEMBER])
  {
    hide ParseChars, ParseValue, NextMember;
    QuotedKey();
    QuotedValue();
    QuotedMember();
    EndReads(QUOTED, 9, false);
    assert [MEMBER] + [] == [MEMBER];
    NoSpace(QUOTED, 0);
  }

  lemma QuotedMember()
    requires ParseChars(QUOTED, 2) == Good(MEMBER.key, 7) && ParseValue(QUOTED, 8) == Good(MEMBER.value, 9)
    ensures NextMember(QUOTED, 1, true) == One(MEMBER, 9)
  {
    hide ParseChars, ParseValue;
    NoSpace(QUOTED, 1);
    NoSpace(QUOTED, 7);
    NoSpace(QUOTED, 8);
    assert QUOTED[8..9] == ['1'];
  }

  /** The document decodes, but its Extensions text is {"a"b":1}, and what was decoded has no encoding. */
  lemma EscapedKeyIsLost()
    ensures Decode(QUOTED).Some? && Decode(QUOTED).value.extensions == ['{', '"', 'a', '"', 'b', '"', ':', '1', '}']
    ensures Encode(Decode(QUOTED).value).None?
  {
    hide Scan, NextMember;
    QuotedReads();
    assert [MEMBER][..0] == [];
    assert Assign(ZERO, [MEMBER]) == Some(ZERO) && Extensions([MEMBER]) == [MEMBER];
    var x := Write([MEMBER]);
    assert [MEMBER][1..] == [];
    assert x == ['{', '"', 'a', '"', 'b', '"', ':', '1', '}'];
    SplitKeyFails();
    WrittenStart([MEMBER]);
  }

  lemma SplitKeyFails()
    ensures Scan(['{', '"', 'a', '"', 'b', '"', ':', '1', '}'], 1, true).None?
  {
    hide ParseChars, ParseValue;
    var x := ['{', '"', 'a', '"', 'b', '"', ':', '1', '}'];
    assert At(x, 2, ['a'] + ['"']);
    PlainReads(x, 2, ['a']);
    NoSpace(x, 1);
    NoSpace(x, 4);
  }

  // ---------------------------------------------------------------- registered members

  /** The document shows the value of the registered member. */
  ghost predicate Shows(p: Problem, m: Piece) {
    if m.key == STATUS then m.value.Num? && ParseInt(m.value.lit) == Some(p.status)
    else m.value == Str(FieldOf(p, m.key))
  }

  function FieldOf(p: Problem, key: string): string {
    if key == TYPE then p.uri else if key == TITLE then p.title else if key == DETAIL then p.detail else p.instance
  }

  /** Member i is a registered one and no later one replaces it. */
  ghost predicate Decides(ms: seq<Piece>, i: nat) {
    && i < |ms| && Registered(ms[i].key) && !ms[i].value.Null?
    && forall j | i < j < |ms| :: ms[j].key != ms[i].key || ms[j].value.Null?
  }

  lemma {:induction false} LastDuplicateWins(ms: seq<Piece>, i: nat)
    requires Assign(ZERO, ms).Some? && Decides(ms, i)
    ensures Shows(Assign(ZERO, ms).value, ms[i])
    decreases |ms|
  {
    hide ParseInt;
    var init, last := ms[..|ms| - 1], ms[|ms| - 1];
    if i < |init| {
      assert init[i] == ms[i] && forall j | i < j < |init| :: init[j] == ms[j];
      LastDuplicateWins(init, i);
    }
  }

  /** A registered member that is absent, or only ever null, leaves its field at zero. */
  lemma {:induction false} AbsentIsZero(ms: seq<Piece>, key: string)
    requires Assign(ZERO, ms).Some? && Registered(key)
    requires forall j | 0 <= j < |ms| :: ms[j].key != key || ms[j].value.Null?
    ensures if key == STATUS then Assign(ZERO, ms).value.status == 0 else FieldOf(Assign(ZERO, ms).value, key) == ""
    decreases |ms|
  {
    hide ParseInt;
    if ms != [] {
      AbsentIsZero(ms[..|ms| - 1], key);
    }
  }

  // ---------------------------------------------------------------- for the loops

  lemma BodyGrows(ms: seq<Piece>, m: Piece)
    ensures Body(ms + [m]) == Body(ms) + (if ms == [] then Entry(m) else [','] + Entry(m))
  {
    if ms == [] {
      assert ms + [m] == [m] && [m][1..] == [];
    } else {
      TailGrows(ms[1..], m);
      assert (ms + [m])[1..] == ms[1..] + [m];
    }
  }

  lemma {:induction false} TailGrows(ms: seq<Piece>, m: Piece)
    ensures Tail(ms + [m]) == Tail(ms) + ([','] + Entry(m))
    decreases |ms|
  {
    if ms == [] {
      assert ms + [m] == [m] && [m][1..] == [];
    } else {
      TailGrows(ms[1..], m);
      assert (ms + [m])[1..] == ms[1..] + [m];
      Regroup([','] + Entry(ms[0]), Tail(ms[1..]), [','] + Entry(m));
    }
  }

  lemma Regroup(a: string, b: string, c: string)
    ensures a + (b + c) == (a + b) + c
  {
  }

  lemma PrependMore(done: seq<Piece>, m: Piece, rest: Option<Scanned>)
    ensures Prepend(done, Prepend([m], rest)) == Prepend(done + [m], rest)
  {
    if rest.Some? {
      assert done + ([m] + rest.value.pieces) == (done + [m]) + rest.value.pieces;
    }
  }

  lemma AssignMore(p: Problem, ms: seq<Piece>, m: Piece)
    ensures Assign(p, ms + [m]) == if Assign(p, ms).None? then None else AssignOne(Assign(p, ms).value, m)
    ensures Extensions(ms + [m]) == Extensions(ms) + if Registered(m.key) then [] else [m]
  {
    assert (ms + [m])[..|ms + [m]| - 1] == ms;
  }

  lemma AssignStaysBad(p: Problem, done: seq<Piece>, more: seq<Piece>)
    requires Assign(p, done).None?
    ensures Assign(p, done + more).None?
  {
    AssignConcat(p, done, more);
  }
}

/** errors.go: ProblemDetails and its two methods. */
module ProblemDetails {
  import opened Wrappers
  import opened Int64
  import opened Decimal
  import opened Json
  import opened JsonText
  import opened ProblemText

  class ProblemDetails {
    var uri: string
    var title: string
    var status: int64
    var detail: string
    var instance: string
    var extensions: string

    ghost function View(): Problem
      reads this
    {
      Problem(uri, title, status, detail, instance, extensions)
    }

    constructor ()
      ensures View() == ZERO
    {
      uri, title, status, detail, instance, extensions := "", "", 0, "", "", "";
    }

    method AssignRegistered(m: Piece) returns (ok: bool)
      requires Registered(m.key)
      modifies this
      ensures ok <==> AssignOne(old(View()), m).Some?
      ensures ok ==> View() == AssignOne(old(View()), m).value
    {
      if m.value.Null? {
        return true;
      }
      if m.key == STATUS {
        if m.value.Num? && ParseInt(m.value.lit).Some? {
          status := ParseInt(m.value.lit).value;
          return true;
        }
        return false;
      }
      if !m.value.Str? {
        return false;
      }
      if m.key == TYPE {
        uri := m.value.s;
      } else if m.key == TITLE {
        title := m.value.s;
      } else if m.key == DETAIL {
        detail := m.value.s;
      } else {
        instance := m.value.s;
      }
      ok := true;
    }

    /** Whatever the object held before, it ends as Decode says; after an error its fields mean nothing. */
    method UnmarshalJSON(data: string) returns (ok: bool)
      modifies this
      ensures ok <==> Decode(data).Some?
      ensures ok ==> View() == Decode(data).value
    {
      hide Scan, NextMember, MembersOf, Assign, AssignOne, Extensions, Body, Entry, Start;
      LoopFacts(data);
      uri, title, status, detail, instance, extensions := "", "", 0, "", "", "";
      var start := Start(data);
      if start.None? {
        return false;
      }
      var i: nat, first, ext := start.value, true, ['{'];
      ghost var done: seq<Piece> := [];
      var more := true;
      while more
        invariant i <= |data|
        invariant more ==> MembersOf(data) == Prepend(done, Scan(data, i, first))
        invariant !more ==> MembersOf(data) == Some(Scanned(done, i))
        invariant Assign(ZERO, done) == Some(View()) && extensions == ""
        invariant ext == ['{'] + Body(Extensions(done))
        decreases more, |data| - i
      {
        var next := NextMember(data, i, first);
        match next {
          case Fail =>
            FailFacts(data, i, first, done);
            return false;
          case End(j) =>
            EndFacts(data, i, first, done, j);
            i, more := j, false;
          case One(m, n) =>
            StepFacts(data, i, first, done, m, n);
            AssignOneFacts(View(), m);
            if Registered(m.key) {
              var stored := AssignRegistered(m);
              if !stored {
                RestIsBad(data, done + [m], n);
                return false;
              }
            } else {
              if |ext| > 1 {
                ext := ext + [','];
              }
              ext := ext + Entry(m);
            }
            done := done + [m];
            i, first := n, false;
        }
      }
      BodyFacts(done);
      if i == |data| || data[i] != '}' {
        return false;
      }
      if |ext| > 1 {
        extensions := ext + ['}'];
      }
      ok := true;
    }

    method MarshalJSON() returns (out: Option<string>)
      ensures out == Encode(View())
    {
      hide Body, MembersOf, StringField, StatusField;
      EmptyBody();
      var buf := ['{'];
      buf := WriteString(buf, TYPE, uri, []);
      ghost var written := [] + StringField(TYPE, uri);
      buf := WriteString(buf, TITLE, title, written);
      written := written + StringField(TITLE, title);
      buf := WriteStatus(buf, status, written);
      written := written + StatusField(status);
      buf := WriteString(buf, DETAIL, detail, written);
      written := written + StringField(DETAIL, detail);
      buf := WriteString(buf, INSTANCE, instance, written);
      written := written + StringField(INSTANCE, instance);
      assert [] + StringField(TYPE, uri) == StringField(TYPE, uri);
      if extensions != "" {
        var ext := ExtensionMembers(extensions);
        if ext.None? {
          return None;
        }
        buf := WriteAll(buf, ext.value, written);
      }
      out := Some(buf + ['}']);
    }
  }

  /** A string field, unless it is empty. */
  method WriteString(buf: string, key: string, v: string, ghost written: seq<Piece>) returns (out: string)
    requires buf == ['{'] + Body(written)
    ensures out == ['{'] + Body(written + StringField(key, v))
  {
    hide Body;
    if v == "" {
      assert written + StringField(key, v) == written;
      return buf;
    }
    out := WriteMember(buf, Piece(key, Str(v), Quote(v)), written);
  }

  method WriteStatus(buf: string, n: int64, ghost written: seq<Piece>) returns (out: string)
    requires buf == ['{'] + Body(written)
    ensures out == ['{'] + Body(written + StatusField(n))
  {
    hide Body;
    if n == 0 {
      assert written + StatusField(n) == written;
      return buf;
    }
    out := WriteMember(buf, Piece(STATUS, Num(Show(n)), Show(n)), written);
  }

  method WriteAll(buf: string, ms: seq<Piece>, ghost written: seq<Piece>) returns (out: string)
    requires buf == ['{'] + Body(written)
    ensures out == ['{'] + Body(written + ms)
  {
    hide Body;
    out := buf;
    assert written + ms[..0] == written;
    for k := 0 to |ms|
      invariant out == ['{'] + Body(written + ms[..k])
    {
      out := WriteMember(out, ms[k], written + ms[..k]);
      assert written + ms[..k] + [ms[k]] == written + ms[..k + 1];
    }
    assert ms[..|ms|] == ms;
  }

  lemma EmptyBody()
    ensures Body([]) == ""
  {
  }

  lemma BodyStep(ms: seq<Piece>, m: Piece)
    ensures var buf := ['{'] + Body(ms);
      ['{'] + Body(ms + [m]) == (if |buf| > 1 then buf + [','] else buf) + Entry(m)
  {
    BodyGrows(ms, m);
    Regroup(['{'], Body(ms), [','] + Entry(m));
    Regroup(['{'] + Body(ms), [','], Entry(m));
  }

  /** writeKey and the value after it. */
  method WriteMember(buf: string, m: Piece, ghost written: seq<Piece>) returns (out: string)
    requires buf == ['{'] + Body(written)
    ensures out == ['{'] + Body(written + [m])
  {
    hide Body, Entry;
    BodyStep(written, m);
    out := buf;
    if |out| > 1 {
      out := out + [','];
    }
    out := out + Entry(m);
  }

  /** extensionMembers */
  method ExtensionMembers(raw: string) returns (out: Option<seq<Piece>>)
    ensures out == if MembersOf(raw).Some? then Some(MembersOf(raw).value.pieces) else None
  {
    hide Scan, NextMember, MembersOf, Start;
    LoopFacts(raw);
    var start := Start(raw);
    if start.None? {
      return None;
    }
    var i: nat, first, done, more := start.value, true, [], true;
    while more
      invariant i <= |raw|
      invariant more ==> MembersOf(raw) == Prepend(done, Scan(raw, i, first))
      invariant !more ==> MembersOf(raw) == Some(Scanned(done, i))
      decreases more, |raw| - i
    {
      var next := NextMember(raw, i, first);
      match next {
        case Fail =>
          FailFacts(raw, i, first, done);
          return None;
        case End(j) =>
          EndFacts(raw, i, first, done, j);
          i, more := j, false;
        case One(m, n) =>
          StepFacts(raw, i, first, done, m, n);
          done := done + [m];
          i, first := n, false;
      }
    }
    out := Some(done);
  }

  lemma LoopFacts(t: string)
    ensures Start(t).None? ==> MembersOf(t).None?
    ensures Start(t).Some? ==> MembersOf(t) == Prepend([], Scan(t, Start(t).value, true))
    ensures Assign(ZERO, []) == Some(ZERO) && Extensions([]) == [] && Body([]) == ""
  {
    hide Scan;
    if Start(t).Some? && Scan(t, Start(t).value, true).Some? {
      var ms := Scan(t, Start(t).value, true).value.pieces;
      assert [] + ms == ms;
    }
  }

  /** A member that is not registered changes no field, and none touches the extensions. */
  lemma AssignOneFacts(p: Problem, m: Piece)
    ensures AssignOne(p, m).Some? ==> AssignOne(p, m).value.extensions == p.extensions
    ensures !Registered(m.key) ==> AssignOne(p, m) == Some(p)
  {
  }

  lemma FailFacts(t: string, i: nat, first: bool, done: seq<Piece>)
    requires i <= |t| && NextMember(t, i, first).Fail?
    ensures Prepend(done, Scan(t, i, first)).None?
  {
    hide NextMember;
  }

  lemma EndFacts(t: string, i: nat, first: bool, done: seq<Piece>, j: nat)
    requires i <= |t| && NextMember(t, i, first) == End(j)
    ensures Prepend(done, Scan(t, i, first)) == Some(Scanned(done, j))
  {
    hide NextMember;
    assert done + [] == done;
  }

  lemma BodyFacts(done: seq<Piece>)
    ensures Body(Extensions(done)) == "" <==> Extensions(done) == []
    ensures ['{'] + Body(Extensions(done)) + ['}'] == Write(Extensions(done))
  {
    hide Extensions;
  }

  lemma StepFacts(t: string, i: nat, first: bool, done: seq<Piece>, m: Piece, n: nat)
    requires i <= |t| && NextMember(t, i, first) == One(m, n)
    ensures Prepend(done, Scan(t, i, first)) == Prepend(done + [m], Scan(t, n, false))
    ensures Assign(ZERO, done).Some? ==> Assign(ZERO, done + [m]) == AssignOne(Assign(ZERO, done).value, m)
    ensures Registered(m.key) ==> Extensions(done + [m]) == Extensions(done)
    ensures !Registered(m.key) ==>
              var ext := ['{'] + Body(Extensions(done));
              ['{'] + Body(Extensions(done + [m])) == (if |ext| > 1 then ext + [','] else ext) + Entry(m)
  {
    hide NextMember, Assign, AssignOne, Extensions;
    PrependMore(done, m, Scan(t, n, false));
    AssignMore(ZERO, done, m);
    BodyGrows(Extensions(done), m);
    BodyFacts(done);
    Regroup(['{'], Body(Extensions(done)), [','] + Entry(m));
    Regroup(['{'] + Body(Extensions(done)), [','], Entry(m));
  }

  lemma RestIsBad(t: string, done: seq<Piece>, n: nat)
    requires n <= |t| && MembersOf(t) == Prepend(done, Scan(t, n, false)) && Assign(ZERO, done).None?
    ensures Decode(t).None?
  {
    if Scan(t, n, false).Some? {
      AssignStaysBad(ZERO, done, Scan(t, n, false).value.pieces);
    }
  }
}
