/** errors.go: which texts the token loop takes for an object, and which of those are problem documents,
    measured against the JSON reader. */
module ProblemObjects {
  import opened Wrappers
  import opened Decimal
  import opened Int64
  import opened Json
  import opened JsonText
  import opened JsonLocality
  import opened ProblemText

  /** The members without the texts of their values. */
  function Members(ps: seq<Piece>): seq<Member> {
    if ps == [] then [] else [Member(ps[0].key, ps[0].value)] + Members(ps[1..])
  }

  // ---------------------------------------------------------------- one member

  lemma FirstReads(t: string, i: nat, key: string, x: nat, v: Json, n: nat)
    requires i <= |t| && var j := SkipSpace(t, i); j < |t| && t[j] == '"' && ParseChars(t, j + 1) == Good(key, x)
    requires var c := SkipSpace(t, x); c < |t| && t[c] == ':' && ParseValue(t, SkipSpace(t, c + 1)) == Good(v, n)
    ensures NextMember(t, i, true).One? && NextMember(t, i, true).next == n
    ensures NextMember(t, i, true).piece.key == key && NextMember(t, i, true).piece.value == v
  {
    hide ParseValue, ParseChars, SkipSpace;
  }

  lemma FirstParts(t: string, i: nat) returns (x: nat)
    requires i <= |t| && NextMember(t, i, true).One?
    ensures var j, r := SkipSpace(t, i), NextMember(t, i, true);
      && j < |t| && t[j] == '"' && ParseChars(t, j + 1) == Good(r.piece.key, x)
      && var c := SkipSpace(t, x);
      c < |t| && t[c] == ':' && ParseValue(t, SkipSpace(t, c + 1)) == Good(r.piece.value, r.next)
  {
    hide ParseValue, ParseChars, SkipSpace;
    x := ParseChars(t, SkipSpace(t, i) + 1).next;
  }

  /** After a comma the loop is where it was after the brace. */
  lemma CommaThen(t: string, i: nat)
    requires i <= |t| && var j := SkipSpace(t, i);
      j < |t| && t[j] == ',' && SkipSpace(t, j + 1) < |t| && t[SkipSpace(t, j + 1)] == '"'
    ensures Scan(t, i, false) == Scan(t, SkipSpace(t, i) + 1, true)
  {
    hide ParseValue, ParseChars, SkipSpace;
    assert NextMember(t, i, false) == NextMember(t, SkipSpace(t, i) + 1, true);
  }

  lemma NextNeedsComma(t: string, i: nat)
    requires i <= |t| && NextMember(t, i, false).One?
    ensures var j := SkipSpace(t, i);
      j < |t| && t[j] == ',' && SkipSpace(t, j + 1) < |t| && t[SkipSpace(t, j + 1)] == '"'
  {
    hide ParseValue, ParseChars, SkipSpace;
  }

  lemma MembersStart(t: string, i: nat)
    requires i <= |t| && ParseMembers(t, i).Good?
    ensures i < |t| && t[i] == '"'
  {
  }

  lemma BraceEnds(t: string, i: nat, first: bool)
    requires i <= |t| && SkipSpace(t, i) < |t| && t[SkipSpace(t, i)] == '}'
    ensures Scan(t, i, first) == Some(Scanned([], SkipSpace(t, i)))
  {
    hide ParseValue, ParseChars, SkipSpace;
  }

  // ---------------------------------------------------------------- all members

  /** What the reader takes for members, the loop takes for the same ones. */
  lemma {:induction false} MembersAreScanned(t: string, i: nat)
    requires i <= |t| && ParseMembers(t, SkipSpace(t, i)).Good?
    ensures var r, s := ParseMembers(t, SkipSpace(t, i)), Scan(t, i, true);
      && s.Some? && s.value.end == r.next - 1 && t[r.next - 1] == '}'
      && s.value.pieces != [] && Members(s.value.pieces) == r.value
    decreases |t| - i
  {
    hide ParseValue, ParseChars, ParseMembers, SkipSpace, NextMember;
    var j := SkipSpace(t, i);
    var key, x, v, n := MembersParts(t, j);
    FirstReads(t, i, key, x, v, n);
    var p, k := NextMember(t, i, true).piece, SkipSpace(t, n);
    if t[k] == '}' {
      BraceEnds(t, n, false);
      OneMember(p, []);
    } else {
      MembersStart(t, SkipSpace(t, k + 1));
      CommaThen(t, n);
      MembersAreScanned(t, k + 1);
      OneMember(p, Scan(t, k + 1, true).value.pieces);
    }
  }

  lemma OneMember(p: Piece, rest: seq<Piece>)
    ensures Members([p] + rest) == [Member(p.key, p.value)] + Members(rest)
    ensures rest == [] ==> Members([p] + rest) == [Member(p.key, p.value)]
  {
    assert ([p] + rest)[1..] == rest;
  }

  /** And the other way round, where the loop ends at a closing brace. */
  lemma {:induction false} ScannedAreMembers(t: string, i: nat)
    requires i <= |t| && Scan(t, i, true).Some? && Scan(t, i, true).value.pieces != []
    requires Scan(t, i, true).value.end < |t| && t[Scan(t, i, true).value.end] == '}'
    ensures var s := Scan(t, i, true).value;
      ParseMembers(t, SkipSpace(t, i)) == Good(Members(s.pieces), s.end + 1)
    decreases |t| - i
  {
    hide ParseValue, ParseChars, ParseMembers, SkipSpace, NextMember;
    var r := NextMember(t, i, true);
    var x := FirstParts(t, i);
    var j, k := SkipSpace(t, i), SkipSpace(t, r.next);
    var rest := Scan(t, r.next, false).value;
    OneMember(r.piece, rest.pieces);
    if NextMember(t, r.next, false).One? {
      NextNeedsComma(t, r.next);
      CommaThen(t, r.next);
      SomePieces(t, r.next);
      ScannedAreMembers(t, k + 1);
      MembersStep(t, j, r.piece.key, x, r.piece.value, r.next, Members(rest.pieces), rest.end + 1);
    } else {
      EndsHere(t, r.next);
      MembersLast(t, j, r.piece.key, x, r.piece.value, r.next);
    }
  }

  lemma SomePieces(t: string, i: nat)
    requires i <= |t| && NextMember(t, i, false).One? && Scan(t, i, false).Some?
    ensures Scan(t, i, false).value.pieces != []
  {
    hide NextMember;
  }

  lemma EndsHere(t: string, i: nat)
    requires i <= |t| && !NextMember(t, i, false).One? && Scan(t, i, false).Some?
    ensures Scan(t, i, false).value == Scanned([], SkipSpace(t, i))
  {
    hide ParseValue, ParseChars, SkipSpace;
  }

  // ---------------------------------------------------------------- whole texts

  /** The first value of the text is an object. */
  ghost predicate StartsWithObject(t: string) {
    var v := ParseValue(t, SkipSpace(t, 0));
    v.Good? && v.value.Obj?
  }

  /** The token loop succeeds exactly on the texts that begin with a JSON object, and takes from them
      just its members, in order. What follows the object is not its concern. */
  lemma ObjectIff(t: string)
    ensures ObjectOf(t).Some? <==> StartsWithObject(t)
    ensures ObjectOf(t).Some? ==> Members(ObjectOf(t).value) == ParseValue(t, SkipSpace(t, 0)).value.members
  {
    hide ParseMembers, ParseElems, ParseChars, NumberEnd, SkipSpace, Scan, At;
    var i := SkipSpace(t, 0);
    if i < |t| && t[i] == '{' {
      var j := SkipSpace(t, i + 1);
      if j < |t| && t[j] == '}' {
        BraceEnds(t, i + 1, true);
      } else {
        if ParseMembers(t, j).Good? {
          MembersAreScanned(t, i + 1);
        }
        if ObjectOf(t).Some? {
          NotEmpty(t, i + 1);
          ScannedAreMembers(t, i + 1);
        }
      }
    }
  }

  lemma NotEmpty(t: string, i: nat)
    requires i <= |t| && Scan(t, i, true).Some? && Scan(t, i, true).value.end < |t|
    requires t[Scan(t, i, true).value.end] == '}'
    requires !(SkipSpace(t, i) < |t| && t[SkipSpace(t, i)] == '}')
    ensures Scan(t, i, true).value.pieces != []
  {
    hide ParseValue, ParseChars, SkipSpace;
  }

  /** An object in any layout, with space in any gap and any spelling of its keys and values, is read
      member by member. */
  lemma LaidOutObjectIsRead(t: string, ms: seq<Member>)
    requires Layout(t, Obj(ms))
    ensures ObjectOf(t).Some? && Members(ObjectOf(t).value) == ms
  {
    hide ParseValue, Layout;
    ParseIff(t, Obj(ms));
    ObjectIff(t);
  }

  // ---------------------------------------------------------------- problem documents

  /** A registered member is null or of the type of its field: status an integer of 64 bits, the others
      strings. */
  predicate OfItsType(m: Member) {
    if m.value.Null? then true
    else if m.key == "status" then m.value.Num? && ParseInt(m.value.lit).Some?
    else if m.key == "type" || m.key == "title" || m.key == "detail" || m.key == "instance" then m.value.Str?
    else true
  }

  lemma {:induction false} AssignsIff(p: Problem, ms: seq<Piece>)
    ensures Assign(p, ms).Some? <==> forall i | 0 <= i < |ms| :: OfItsType(Member(ms[i].key, ms[i].value))
  {
    if ms != [] {
      var init := ms[..|ms| - 1];
      AssignsIff(p, init);
      assert forall i | 0 <= i < |init| :: init[i] == ms[i];
    }
  }

  lemma {:induction false} MembersAt(ps: seq<Piece>)
    ensures |Members(ps)| == |ps|
    ensures forall i | 0 <= i < |ps| :: Members(ps)[i] == Member(ps[i].key, ps[i].value)
    decreases |ps|
  {
    if ps != [] {
      MembersAt(ps[1..]);
    }
  }

  /** Which texts are problem documents: those that begin with a JSON object every registered member of
      which is null or of its field's type. */
  lemma DecodesIff(t: string)
    ensures Decode(t).Some? <==>
            StartsWithObject(t) &&
            var ms := ParseValue(t, SkipSpace(t, 0)).value.members;
            forall i | 0 <= i < |ms| :: OfItsType(ms[i])
  {
    hide ParseValue, SkipSpace, ObjectOf, Assign, OfItsType, Extensions, Write;
    ObjectIff(t);
    if ObjectOf(t).Some? {
      MembersAt(ObjectOf(t).value);
      AssignsIff(ZERO, ObjectOf(t).value);
    }
  }

  /** So every layout of such an object decodes, and no layout of another object does. */
  lemma LaidOutDocumentsDecodeIff(t: string, ms: seq<Member>)
    requires Layout(t, Obj(ms))
    ensures Decode(t).Some? <==> forall i | 0 <= i < |ms| :: OfItsType(ms[i])
  {
    hide ParseValue, SkipSpace, Layout, OfItsType, Decode;
    ParseIff(t, Obj(ms));
    DecodesIff(t);
    assert ParseValue(t, SkipSpace(t, 0)).value == Obj(ms);
  }

  // ---------------------------------------------------------------- the order of the written fields

  const ORDER := ["type", "title", "status", "detail", "instance"]

  predicate IsSet(p: Problem, key: string) {
    if key == "type" then p.uri != "" else if key == "title" then p.title != ""
    else if key == "status" then p.status != 0 else if key == "detail" then p.detail != ""
    else key == "instance" && p.instance != ""
  }

  function IfSet(p: Problem, key: string): seq<string> {
    if IsSet(p, key) then [key] else []
  }

  /** The keys of `all` that are set, in their order. */
  function SetKeys(p: Problem, all: seq<string>): seq<string> {
    if all == [] then [] else IfSet(p, all[0]) + SetKeys(p, all[1..])
  }

  function Keys(ps: seq<Piece>): seq<string> {
    seq(|ps|, i requires 0 <= i < |ps| => ps[i].key)
  }

  lemma KeysConcat(a: seq<Piece>, b: seq<Piece>)
    ensures Keys(a + b) == Keys(a) + Keys(b)
  {
  }

  lemma FieldKeys(p: Problem)
    ensures Keys(StringField(TYPE, p.uri)) == IfSet(p, "type")
    ensures Keys(StringField(TITLE, p.title)) == IfSet(p, "title")
    ensures Keys(StatusField(p.status)) == IfSet(p, "status")
    ensures Keys(StringField(DETAIL, p.detail)) == IfSet(p, "detail")
    ensures Keys(StringField(INSTANCE, p.instance)) == IfSet(p, "instance")
  {
    hide Show, Quote;
  }

  lemma SetKeysStep(p: Problem, key: string, rest: seq<string>)
    ensures SetKeys(p, [key] + rest) == IfSet(p, key) + SetKeys(p, rest)
  {
    assert ([key] + rest)[1..] == rest;
  }

  /** The registered members are written in the order of the specification, the zero ones left out. */
  lemma FieldsAreInOrder(p: Problem)
    ensures Keys(Fields(p)) == SetKeys(p, ORDER)
  {
    hide IfSet, SetKeys, Keys, StringField, StatusField;
    FieldKeys(p);
    var a, b, c := StringField(TYPE, p.uri), StringField(TITLE, p.title), StatusField(p.status);
    var d, e := StringField(DETAIL, p.detail), StringField(INSTANCE, p.instance);
    KeysConcat(a + b + c + d, e);
    KeysConcat(a + b + c, d);
    KeysConcat(a + b, c);
    KeysConcat(a, b);
    SetKeysStep(p, "instance", []);
    SetKeysStep(p, "detail", ["instance"]);
    SetKeysStep(p, "status", ["detail", "instance"]);
    SetKeysStep(p, "title", ["status", "detail", "instance"]);
    SetKeysStep(p, "type", ["title", "status", "detail", "instance"]);
    NoSetKeys(p);
    Appended(IfSet(p, "type"), IfSet(p, "title"), IfSet(p, "status"), IfSet(p, "detail"), IfSet(p, "instance"));
  }

  lemma NoSetKeys(p: Problem)
    ensures SetKeys(p, []) == []
    ensures ["instance"] + [] == ["instance"]
    ensures ["detail"] + ["instance"] == ["detail", "instance"]
    ensures ["status"] + ["detail", "instance"] == ["status", "detail", "instance"]
    ensures ["title"] + ["status", "detail", "instance"] == ["title", "status", "detail", "instance"]
    ensures ["type"] + ["title", "status", "detail", "instance"] == ORDER
  {
  }

  lemma Appended<T>(a: seq<T>, b: seq<T>, c: seq<T>, d: seq<T>, e: seq<T>)
    ensures a + (b + (c + (d + (e + [])))) == a + b + c + d + e
  {
  }
}
