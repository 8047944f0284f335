/** memstore/memstore.go: the canonical JSON text under which the store files what it knows about a
    subject. json.Unmarshal into `any` gives a value, json.Marshal writes it with sorted members. */
module SubjectKeys {
  import opened Wrappers
  import opened Json
  import opened JsonText

  /** What a text denotes once read into Go's `any`; a number is the bit pattern of a finite float64. */
  datatype Value =
    | VNull
    | VBool(b: bool)
    | VNum(bits: nat)
    | VStr(s: string)
    | VArr(elems: seq<Value>)
    | VObj(members: map<string, Value>)

  /** strconv as encoding/json uses it: `read` is None for a literal beyond the range of float64. */
  datatype Floats = Floats(read: string -> Option<nat>, show: nat -> string) {
    /** Written numbers are JSON numbers and read back as themselves. */
    ghost predicate Faithful() {
      forall lit | read(lit).Some? :: IsNumber(show(read(lit).value)) && read(show(read(lit).value)) == read(lit)
    }
  }

  // ---------------------------------------------------------------- reading

  /** The value of a tree; of members with the same key the last wins, but every one must be readable. */
  function Meaning(f: Floats, j: Json): Option<Value> {
    match j
    case Null => Some(VNull)
    case Bool(b) => Some(VBool(b))
    case Num(lit) => if f.read(lit).Some? then Some(VNum(f.read(lit).value)) else None
    case Str(s) => Some(VStr(s))
    case Arr(es) =>
      var vs := MeaningElems(f, es);
      if vs.Some? then Some(VArr(vs.value)) else None
    case Obj(ms) =>
      var m := MeaningMembers(f, ms);
      if m.Some? then Some(VObj(m.value)) else None
  }

  function MeaningElems(f: Floats, es: seq<Json>): Option<seq<Value>> {
    if es == [] then Some([])
    else
      var v, rest := Meaning(f, es[0]), MeaningElems(f, es[1..]);
      if v.Some? && rest.Some? then Some([v.value] + rest.value) else None
  }

  function MeaningMembers(f: Floats, ms: seq<Member>): Option<map<string, Value>> {
    if ms == [] then Some(map[])
    else
      var v, rest := Meaning(f, ms[0].value), MeaningMembers(f, ms[1..]);
      if v.Some? && rest.Some? then Some(map[ms[0].key := v.value] + rest.value) else None
  }

  /** What json.Unmarshal makes of a text. */
  function Denotes(f: Floats, t: string): Option<Value> {
    match Parse(t)
    case Bad => None
    case Good(j, _) => Meaning(f, j)
  }

  // ---------------------------------------------------------------- writing

  /** The order json.Marshal gives member keys. */
  predicate Less(a: string, b: string) {
    b != "" && (a == "" || a[0] < b[0] || (a[0] == b[0] && Less(a[1..], b[1..])))
  }

  /** One text is before another where it ends first or has the smaller character at the first place
      where they differ. */
  ghost predicate FirstDifference(a: string, b: string, n: nat) {
    n <= |a| && n < |b| && a[..n] == b[..n] && (n == |a| || a[n] < b[n])
  }

  lemma {:induction false} LessIff(a: string, b: string)
    ensures Less(a, b) <==> exists n: nat :: FirstDifference(a, b, n)
    decreases |a|
  {
    if a != "" && b != "" && a[0] == b[0] {
      LessIff(a[1..], b[1..]);
      assert a == [a[0]] + a[1..] && b == [b[0]] + b[1..];
      if n: nat :| FirstDifference(a[1..], b[1..], n) {
        assert a[..n + 1] == [a[0]] + a[1..][..n] && b[..n + 1] == [b[0]] + b[1..][..n];
        assert FirstDifference(a, b, n + 1);
      }
      if n: nat :| FirstDifference(a, b, n) {
        assert a[1..][..n - 1] == a[..n][1..] && b[1..][..n - 1] == b[..n][1..];
        assert FirstDifference(a[1..], b[1..], n - 1);
      }
    } else if Less(a, b) {
      assert FirstDifference(a, b, 0);
    } else {
      forall n: nat
        ensures !FirstDifference(a, b, n)
      {
        if 0 < n <= |a| && n <= |b| {
          assert a[..n][0] == a[0] && b[..n][0] == b[0];
        }
      }
    }
  }

  predicate IsLeast(k: string, keys: set<string>) {
    k in keys && forall o <- keys :: o == k || Less(k, o)
  }

  function SortedKeys(keys: set<string>): seq<string> {
    if keys == {} then []
    else
      LeastExists(keys);
      LeastIsUnique(keys);
      var k :| k in keys && IsLeast(k, keys);
      [k] + SortedKeys(keys - {k})
  }

  function Reify(f: Floats, v: Value): Json
    decreases v, 0, 1
  {
    match v
    case VNull => Null
    case VBool(b) => Bool(b)
    case VNum(bits) => Num(f.show(bits))
    case VStr(s) => Str(s)
    case VArr(vs) => Arr(ReifyElems(f, vs))
    case VObj(m) =>
      SortedKeysEnumerate(m.Keys);
      Obj(ReifyMembers(f, v, SortedKeys(m.Keys)))
  }

  function ReifyElems(f: Floats, vs: seq<Value>): seq<Json>
    decreases vs
  {
    if vs == [] then [] else [Reify(f, vs[0])] + ReifyElems(f, vs[1..])
  }

  function ReifyMembers(f: Floats, v: Value, keys: seq<string>): seq<Member>
    requires v.VObj? && forall k <- keys :: k in v.members
    decreases v, 0, 0, |keys|
  {
    if keys == [] then [] else [Member(keys[0], Reify(f, v.members[keys[0]]))] + ReifyMembers(f, v, keys[1..])
  }

  /** The sentinels that the errors of the store wrap. */
  datatype Error = InvalidConfig | StreamNotFound

  /** canonicalSubjectKey: the empty text is the whole stream. */
  function Key(f: Floats, t: string): Result<string, Error> {
    if t == "" then Ok("")
    else
      match Denotes(f, t)
      case None => Err(InvalidConfig)
      case Some(v) => Ok(Print(Reify(f, v)))
  }

  // ---------------------------------------------------------------- the order of keys

  lemma {:induction false} LessTotal(a: string, b: string)
    ensures a == b || Less(a, b) || Less(b, a)
    decreases |a|
  {
    if a != "" && b != "" && a[0] == b[0] {
      LessTotal(a[1..], b[1..]);
      assert a == [a[0]] + a[1..] && b == [b[0]] + b[1..];
    }
  }

  lemma {:induction false} LessTransitive(a: string, b: string, c: string)
    requires Less(a, b) && Less(b, c)
    ensures Less(a, c)
    decreases |a|
  {
    if a != "" && a[0] == b[0] == c[0] {
      LessTransitive(a[1..], b[1..], c[1..]);
    }
  }

  lemma {:induction false} LessIrreflexive(a: string)
    ensures !Less(a, a)
    decreases |a|
  {
    if a != "" {
      LessIrreflexive(a[1..]);
    }
  }

  lemma {:induction false} LeastExists(keys: set<string>)
    requires keys != {}
    ensures exists k :: IsLeast(k, keys)
    decreases |keys|
  {
    var k :| k in keys;
    var rest := keys - {k};
    if rest == {} {
      assert forall o <- keys :: o == k || o in rest;
      assert IsLeast(k, keys);
    } else {
      LeastExists(rest);
      var m :| IsLeast(m, rest);
      LessTotal(k, m);
      var l := if Less(k, m) then k else m;
      forall o <- keys
        ensures o == l || Less(l, o)
      {
        if l == k && o != k && o != m {
          LessTransitive(k, m, o);
        }
      }
      assert IsLeast(l, keys);
    }
  }

  lemma LeastIsUnique(keys: set<string>)
    ensures forall a, b | IsLeast(a, keys) && IsLeast(b, keys) :: a == b
  {
    forall a, b | IsLeast(a, keys) && IsLeast(b, keys)
      ensures a == b
    {
      if Less(a, b) && Less(b, a) {
        LessTransitive(a, b, a);
        LessIrreflexive(a);
      }
    }
  }

  ghost predicate Increasing(keys: seq<string>) {
    forall i, j | 0 <= i < j < |keys| :: Less(keys[i], keys[j])
  }

  lemma {:induction false} SortedKeysEnumerate(keys: set<string>)
    ensures forall k :: k in SortedKeys(keys) <==> k in keys
    ensures Increasing(SortedKeys(keys))
    decreases |keys|
  {
    if keys != {} {
      LeastExists(keys);
      var s := SortedKeys(keys);
      var k := s[0];
      assert IsLeast(k, keys) && s[1..] == SortedKeys(keys - {k});
      SortedKeysEnumerate(keys - {k});
      forall o
        ensures o in s <==> o in keys
      {
        assert o in s <==> o == k || o in s[1..];
      }
      forall i, j | 0 <= i < j < |s|
        ensures Less(s[i], s[j])
      {
        assert s[j] == s[1..][j - 1] && s[j] in s[1..];
        if i > 0 {
          assert s[i] == s[1..][i - 1];
        }
      }
    }
  }

  // ---------------------------------------------------------------- what a list of members denotes

  /** Member i is not overridden by a later one. */
  ghost predicate Final(ms: seq<Member>, i: nat) {
    i < |ms| && forall j | i < j < |ms| :: ms[j].key != ms[i].key
  }

  ghost predicate Binds(ms: seq<Member>, k: string, j: Json) {
    exists i: nat :: Final(ms, i) && ms[i] == Member(k, j)
  }

  lemma BindsTail(ms: seq<Member>, k: string, j: Json)
    requires ms != []
    ensures Binds(ms, k, j) <==>
            Binds(ms[1..], k, j) || (ms[0] == Member(k, j) && forall m <- ms[1..] :: m.key != k)
  {
    if i: nat :| Final(ms, i) && ms[i] == Member(k, j) {
      if i > 0 {
        assert Final(ms[1..], i - 1) && ms[1..][i - 1] == ms[i];
      } else {
        forall m <- ms[1..]
          ensures m.key != k
        {
          var p :| 0 <= p < |ms[1..]| && ms[1..][p] == m;
          assert ms[p + 1] == m;
        }
      }
    }
    if i: nat :| Final(ms[1..], i) && ms[1..][i] == Member(k, j) {
      forall p | i + 1 < p < |ms|
        ensures ms[p].key != ms[i + 1].key
      {
        assert ms[p] == ms[1..][p - 1];
      }
      assert Final(ms, i + 1) && ms[i + 1] == Member(k, j);
    }
    if ms[0] == Member(k, j) && forall m <- ms[1..] :: m.key != k {
      forall p | 0 < p < |ms|
        ensures ms[p].key != k
      {
        assert ms[p] == ms[1..][p - 1] && ms[p] in ms[1..];
      }
      assert Final(ms, 0);
    }
  }

  /** A list of members denotes the map of its final bindings, and nothing if any member, even one
      that is overridden, denotes nothing. */
  lemma {:induction false} LastMemberWins(f: Floats, ms: seq<Member>)
    ensures MeaningMembers(f, ms).Some? <==> forall m <- ms :: Meaning(f, m.value).Some?
    ensures MeaningMembers(f, ms).Some? ==>
              var found := MeaningMembers(f, ms).value;
              && (forall k :: k in found <==> exists m <- ms :: m.key == k)
              && forall k, j | Binds(ms, k, j) :: k in found && Some(found[k]) == Meaning(f, j)
    decreases |ms|
  {
    if ms != [] {
      var rest := ms[1..];
      assert ms == [ms[0]] + rest;
      LastMemberWins(f, rest);
      if MeaningMembers(f, ms).Some? {
        var found := MeaningMembers(f, ms).value;
        forall k, j | Binds(ms, k, j)
          ensures k in found && Some(found[k]) == Meaning(f, j)
        {
          BindsTail(ms, k, j);
        }
      }
    }
  }

  /** Every number in the tree, at any depth and even in a member that is overridden, can be read. */
  ghost predicate NumbersRead(f: Floats, j: Json) {
    match j
    case Num(lit) => f.read(lit).Some?
    case Arr(es) => forall e <- es :: NumbersRead(f, e)
    case Obj(ms) => forall m <- ms :: NumbersRead(f, m.value)
    case _ => true
  }

  /** A tree denotes something exactly when its numbers can be read; nothing else is asked of it. */
  lemma {:induction false} DenotesIff(f: Floats, j: Json)
    ensures Meaning(f, j).Some? <==> NumbersRead(f, j)
    decreases j
  {
    match j {
      case Arr(es) =>
        ElemsDenoteIff(f, es);
        forall e <- es
          ensures Meaning(f, e).Some? <==> NumbersRead(f, e)
        {
          DenotesIff(f, e);
        }
      case Obj(ms) =>
        LastMemberWins(f, ms);
        forall m <- ms
          ensures Meaning(f, m.value).Some? <==> NumbersRead(f, m.value)
        {
          DenotesIff(f, m.value);
        }
      case _ =>
    }
  }

  lemma {:induction false} ElemsDenoteIff(f: Floats, es: seq<Json>)
    ensures MeaningElems(f, es).Some? <==> forall e <- es :: Meaning(f, e).Some?
    decreases |es|
  {
    if es != [] {
      ElemsDenoteIff(f, es[1..]);
      assert MeaningElems(f, es).Some? <==> Meaning(f, es[0]).Some? && MeaningElems(f, es[1..]).Some?;
      forall e | e in es
        ensures e == es[0] || e in es[1..]
      {
        assert es == [es[0]] + es[1..];
      }
      assert es[0] in es && forall e <- es[1..] :: e in es;
    }
  }

  lemma {:induction false} EveryKeyIsBound(ms: seq<Member>, k: string)
    ensures (exists m <- ms :: m.key == k) <==> exists j :: Binds(ms, k, j)
    decreases |ms|
  {
    if ms != [] {
      assert ms == [ms[0]] + ms[1..];
      EveryKeyIsBound(ms[1..], k);
      forall j
        ensures Binds(ms, k, j) <==>
                Binds(ms[1..], k, j) || (ms[0] == Member(k, j) && forall m <- ms[1..] :: m.key != k)
      {
        BindsTail(ms, k, j);
      }
      if ms[0].key == k && forall m <- ms[1..] :: m.key != k {
        assert Binds(ms, k, ms[0].value);
      }
    }
  }

  /** The trees denote the same for anybody who takes numbers as float64 and, of members with one key,
      the last: alike element by element, and alike in the final bindings whatever the order of the
      members and whatever is overridden, at every depth. */
  ghost predicate Alike(f: Floats, j: Json, k: Json) {
    match j
    case Num(a) => k.Num? && f.read(a) == f.read(k.lit)
    case Arr(es) => k.Arr? && |es| == |k.elems| && forall i | 0 <= i < |es| :: Alike(f, es[i], k.elems[i])
    case Obj(ms) =>
      && k.Obj? && KeysOf(ms) == KeysOf(k.members)
      && forall i: nat, l: nat | Final(ms, i) && Final(k.members, l) && ms[i].key == k.members[l].key ::
           Alike(f, ms[i].value, k.members[l].value)
    case _ => j == k
  }

  function KeysOf(ms: seq<Member>): set<string> {
    set m <- ms :: m.key
  }

  lemma {:induction false} ElemsMean(f: Floats, es: seq<Json>)
    requires MeaningElems(f, es).Some?
    ensures var vs := MeaningElems(f, es).value;
      |vs| == |es| && forall i | 0 <= i < |es| :: Meaning(f, es[i]) == Some(vs[i])
    decreases |es|
  {
    hide Meaning;
    if es != [] {
      ElemsMean(f, es[1..]);
      assert forall i | 1 <= i < |es| :: es[i] == es[1..][i - 1];
    }
  }

  /** What the final members of a readable list contribute. */
  lemma FinalMeans(f: Floats, ms: seq<Member>, i: nat)
    requires MeaningMembers(f, ms).Some? && Final(ms, i)
    ensures ms[i].key in MeaningMembers(f, ms).value
    ensures Meaning(f, ms[i].value) == Some(MeaningMembers(f, ms).value[ms[i].key])
  {
    hide Meaning;
    LastMemberWins(f, ms);
    assert Binds(ms, ms[i].key, ms[i].value);
  }

  lemma FinalExists(ms: seq<Member>, key: string) returns (i: nat)
    requires key in KeysOf(ms)
    ensures Final(ms, i) && ms[i].key == key
  {
    EveryKeyIsBound(ms, key);
    var j :| Binds(ms, key, j);
    i :| Final(ms, i) && ms[i] == Member(key, j);
  }

  lemma {:induction false} MeaningAgreesIff(f: Floats, j: Json, k: Json)
    requires Meaning(f, j).Some? && Meaning(f, k).Some?
    ensures Meaning(f, j) == Meaning(f, k) <==> Alike(f, j, k)
    decreases j, 0
  {
    match j {
      case Arr(es) =>
        if k.Arr? {
          ElementsAgreeIff(f, es, k.elems);
        }
      case Obj(ms) =>
        if k.Obj? {
          OrderDoesNotMatter(f, ms, k.members);
        }
      case _ =>
    }
  }

  lemma {:induction false} ElementsAgreeIff(f: Floats, es: seq<Json>, gs: seq<Json>)
    requires MeaningElems(f, es).Some? && MeaningElems(f, gs).Some?
    ensures MeaningElems(f, es) == MeaningElems(f, gs) <==> Alike(f, Arr(es), Arr(gs))
    decreases es, 1
  {
    hide Meaning, MeaningElems;
    ElemsMean(f, es);
    ElemsMean(f, gs);
    forall i | 0 <= i < |es| && i < |gs|
      ensures MeaningElems(f, es).value[i] == MeaningElems(f, gs).value[i] <==> Alike(f, es[i], gs[i])
    {
      MeaningAgreesIff(f, es[i], gs[i]);
    }
    var vs, ws := MeaningElems(f, es).value, MeaningElems(f, gs).value;
    if Alike(f, Arr(es), Arr(gs)) {
      assert forall i | 0 <= i < |vs| :: vs[i] == ws[i];
      assert vs == ws;
    }
  }

  /** Neither the order of members, at any depth, nor what is overridden matters to what a list of
      members denotes, and nothing else can change without changing that. */
  lemma {:induction false} OrderDoesNotMatter(f: Floats, ms: seq<Member>, ns: seq<Member>)
    requires MeaningMembers(f, ms).Some? && MeaningMembers(f, ns).Some?
    ensures MeaningMembers(f, ms) == MeaningMembers(f, ns) <==> Alike(f, Obj(ms), Obj(ns))
    decreases ms, 1
  {
    hide Meaning, MeaningMembers, Binds;
    LastMemberWins(f, ms);
    LastMemberWins(f, ns);
    var a, b := MeaningMembers(f, ms).value, MeaningMembers(f, ns).value;
    assert KeysOf(ms) == a.Keys && KeysOf(ns) == b.Keys;
    forall i: nat, l: nat | Final(ms, i) && Final(ns, l) && ms[i].key == ns[l].key
      ensures ms[i].key in a && ms[i].key in b
      ensures a[ms[i].key] == b[ms[i].key] <==> Alike(f, ms[i].value, ns[l].value)
    {
      FinalMeans(f, ms, i);
      FinalMeans(f, ns, l);
      MeaningAgreesIff(f, ms[i].value, ns[l].value);
    }
    if Alike(f, Obj(ms), Obj(ns)) {
      forall key | key in a
        ensures key in b && a[key] == b[key]
      {
        var i := FinalExists(ms, key);
        var l := FinalExists(ns, key);
      }
      assert a == b;
    }
  }

  // ---------------------------------------------------------------- writing and reading back

  /** Every number in the value is one that some literal reads as. */
  ghost predicate Readable(f: Floats, v: Value) {
    match v
    case VNum(bits) => exists lit :: f.read(lit) == Some(bits)
    case VArr(vs) => forall e <- vs :: Readable(f, e)
    case VObj(m) => forall k | k in m :: Readable(f, m[k])
    case _ => true
  }

  ghost predicate AllReadable(f: Floats, m: map<string, Value>) {
    forall k | k in m :: Readable(f, m[k])
  }

  lemma {:induction false} MeaningIsReadable(f: Floats, j: Json)
    ensures Meaning(f, j).Some? ==> Readable(f, Meaning(f, j).value)
    decreases j
  {
    match j {
      case Arr(es) => ElemsAreReadable(f, es);
      case Obj(ms) =>
        MembersAreReadable(f, ms);
      case _ =>
    }
  }

  lemma {:induction false} ElemsAreReadable(f: Floats, es: seq<Json>)
    ensures MeaningElems(f, es).Some? ==> forall v <- MeaningElems(f, es).value :: Readable(f, v)
    decreases es
  {
    if es != [] {
      MeaningIsReadable(f, es[0]);
      ElemsAreReadable(f, es[1..]);
    }
  }

  lemma {:induction false} MembersAreReadable(f: Floats, ms: seq<Member>)
    ensures MeaningMembers(f, ms).Some? ==>
              AllReadable(f, MeaningMembers(f, ms).value)
    decreases ms
  {
    if ms != [] {
      MeaningIsReadable(f, ms[0].value);
      MembersAreReadable(f, ms[1..]);
      if MeaningMembers(f, ms).Some? {
        var m, rest := MeaningMembers(f, ms).value, MeaningMembers(f, ms[1..]).value;
        forall k | k in m
          ensures Readable(f, m[k])
        {
        }
      }
    }
  }

  /** A tree json.Marshal can have written: numbers in the form it gives them, members in order. */
  ghost predicate Canonical(f: Floats, j: Json) {
    match j
    case Num(lit) => IsNumber(lit) && f.read(lit).Some? && lit == f.show(f.read(lit).value)
    case Arr(es) => forall e <- es :: Canonical(f, e)
    case Obj(ms) =>
      (forall m <- ms :: Canonical(f, m.value)) && forall p, q | 0 <= p < q < |ms| :: Less(ms[p].key, ms[q].key)
    case _ => true
  }

  lemma {:induction false} ReifyMembersShape(f: Floats, v: Value, keys: seq<string>)
    requires v.VObj? && forall k <- keys :: k in v.members
    ensures var ms := ReifyMembers(f, v, keys);
      |ms| == |keys| && forall i | 0 <= i < |ms| :: ms[i] == Member(keys[i], Reify(f, v.members[keys[i]]))
    decreases |keys|
  {
    if keys != [] {
      ReifyMembersShape(f, v, keys[1..]);
    }
  }

  /** Members that agree with a map and cover it denote it. */
  lemma MembersMean(f: Floats, ms: seq<Member>, m: map<string, Value>)
    requires forall e <- ms :: e.key in m && Meaning(f, e.value) == Some(m[e.key])
    requires forall k | k in m :: exists e <- ms :: e.key == k
    ensures MeaningMembers(f, ms) == Some(m)
  {
    LastMemberWins(f, ms);
    var found := MeaningMembers(f, ms).value;
    forall k | k in m
      ensures found[k] == m[k]
    {
      EveryKeyIsBound(ms, k);
      var j :| Binds(ms, k, j);
      var i: nat :| Final(ms, i) && ms[i] == Member(k, j);
      assert ms[i] in ms;
    }
    assert found == m;
  }

  lemma {:induction false} ReifyMeans(f: Floats, v: Value)
    requires f.Faithful() && Readable(f, v)
    ensures Meaning(f, Reify(f, v)) == Some(v) && Canonical(f, Reify(f, v))
    decreases v
  {
    match v {
      case VNum(bits) =>
        var lit :| f.read(lit) == Some(bits);
        assert f.read(lit).Some?;
      case VArr(vs) =>
        ReifyElemsMean(f, vs);
      case VObj(m) =>
        forall k | k in m
          ensures Meaning(f, Reify(f, m[k])) == Some(m[k]) && Canonical(f, Reify(f, m[k]))
        {
          ReifyMeans(f, m[k]);
        }
        ReifyObjectMeans(f, v);
      case _ =>
    }
  }

  lemma ReifyObjectMeans(f: Floats, v: Value)
    requires v.VObj?
    requires forall k | k in v.members ::
      Meaning(f, Reify(f, v.members[k])) == Some(v.members[k]) && Canonical(f, Reify(f, v.members[k]))
    ensures Meaning(f, Reify(f, v)) == Some(v) && Canonical(f, Reify(f, v))
  {
    hide SortedKeys, ReifyMembers, MeaningMembers, Less, IsNumber;
    var m := v.members;
    var keys := SortedKeys(m.Keys);
    SortedKeysEnumerate(m.Keys);
    ReifyMembersShape(f, v, keys);
    var ms := ReifyMembers(f, v, keys);
    forall k | k in m
      ensures exists e <- ms :: e.key == k
    {
      var i :| 0 <= i < |keys| && keys[i] == k;
      assert ms[i] in ms;
    }
    MembersMean(f, ms, m);
    assert Reify(f, v) == Obj(ms);
  }

  lemma {:induction false} ReifyElemsMean(f: Floats, vs: seq<Value>)
    requires f.Faithful() && forall v <- vs :: Readable(f, v)
    ensures MeaningElems(f, ReifyElems(f, vs)) == Some(vs)
    ensures forall e <- ReifyElems(f, vs) :: Canonical(f, e)
    decreases vs
  {
    if vs != [] {
      ReifyMeans(f, vs[0]);
      ReifyElemsMean(f, vs[1..]);
      assert ReifyElems(f, vs)[1..] == ReifyElems(f, vs[1..]);
      assert [vs[0]] + vs[1..] == vs;
    }
  }

  lemma {:induction false} CanonicalIsWellFormed(f: Floats, j: Json)
    requires Canonical(f, j)
    ensures WellFormed(j)
    decreases j
  {
    match j {
      case Arr(es) =>
        forall e <- es
          ensures WellFormed(e)
        {
          CanonicalIsWellFormed(f, e);
        }
      case Obj(ms) =>
        forall m <- ms
          ensures WellFormed(m.value)
        {
          CanonicalIsWellFormed(f, m.value);
        }
      case _ =>
    }
  }

  // ---------------------------------------------------------------- the main results

  /** Which subjects have a key: the empty one, and every text that lays out a tree whose numbers can be
      read. Any other is an invalid configuration. */
  lemma KeyIsThereIff(f: Floats, t: string)
    ensures Key(f, t).Ok? <==> t == "" || exists j :: Layout(t, j) && NumbersRead(f, j)
    ensures Key(f, t).Err? ==> Key(f, t).error == InvalidConfig
  {
    hide Layout, Meaning, NumbersRead;
    forall j
      ensures Layout(t, j) <==> Parse(t).Good? && Parse(t).value == j
    {
      ParseIff(t, j);
    }
    if Parse(t).Good? {
      DenotesIff(f, Parse(t).value);
    }
  }

  /** A key is a JSON text, in canonical form, of the value the subject denotes. */
  lemma KeyDenotesTheSubject(f: Floats, t: string)
    requires f.Faithful() && t != "" && Key(f, t).Ok?
    ensures var k := Key(f, t).value;
            && k != ""
            && Denotes(f, k) == Denotes(f, t)
            && Parse(k).Good? && Canonical(f, Parse(k).value) && k == Print(Parse(k).value)
  {
    var j := Parse(t).value;
    var v := Meaning(f, j).value;
    MeaningIsReadable(f, j);
    ReifyMeans(f, v);
    var c := Reify(f, v);
    CanonicalIsWellFormed(f, c);
    PrintRoundTrip(c);
  }

  /** Two subjects share a key exactly when they denote the same value. */
  lemma KeysAgreeIff(f: Floats, t: string, u: string)
    requires f.Faithful() && t != "" && u != "" && Key(f, t).Ok? && Key(f, u).Ok?
    ensures Key(f, t) == Key(f, u) <==> Denotes(f, t) == Denotes(f, u)
  {
    KeyDenotesTheSubject(f, t);
    KeyDenotesTheSubject(f, u);
  }

  lemma KeyIsIdempotent(f: Floats, t: string)
    requires f.Faithful() && Key(f, t).Ok?
    ensures Key(f, Key(f, t).value) == Key(f, t)
  {
    if t != "" {
      KeyDenotesTheSubject(f, t);
    }
  }

  /** No subject is filed under the key of the whole stream. */
  lemma OnlyTheEmptySubjectIsTheWholeStream(f: Floats, t: string)
    requires f.Faithful()
    ensures Key(f, t) == Ok("") <==> t == ""
  {
    if t != "" && Key(f, t).Ok? {
      KeyDenotesTheSubject(f, t);
    }
  }

  /** Neither space nor the spelling of characters matters: two layouts of a tree share their key. */
  lemma LayoutDoesNotMatter(f: Floats, t: string, u: string, j: Json)
    requires Layout(t, j) && Layout(u, j)
    ensures t != "" && u != "" && Key(f, t) == Key(f, u)
  {
    hide Layout, Meaning;
    ParseIff(t, j);
    ParseIff(u, j);
  }

  /** The keys of two subjects, each laid out in its own way, are the same exactly when their trees are
      alike. */
  lemma LaidOutKeysAgreeIff(f: Floats, t: string, j: Json, u: string, k: Json)
    requires f.Faithful() && Layout(t, j) && Layout(u, k) && Key(f, t).Ok? && Key(f, u).Ok?
    ensures Key(f, t) == Key(f, u) <==> Alike(f, j, k)
  {
    hide Layout, Meaning, Alike;
    LayoutDoesNotMatter(f, t, t, j);
    LayoutDoesNotMatter(f, u, u, k);
    ParseIff(t, j);
    ParseIff(u, k);
    KeysAgreeIff(f, t, u);
    MeaningAgreesIff(f, j, k);
  }

  /** Number literals with the same float64 reading, such as neighbouring large integers, share a key;
      one out of range makes the subject invalid. */
  lemma NumbersCollapse(f: Floats, a: string, b: string)
    requires f.Faithful() && IsNumber(a) && IsNumber(b)
    ensures Key(f, a).Ok? <==> f.read(a).Some?
    ensures f.read(a).Some? && f.read(b).Some? ==> (Key(f, a) == Key(f, b) <==> f.read(a) == f.read(b))
  {
    forall lit | lit == a || lit == b
      ensures lit != "" && Denotes(f, lit) == Meaning(f, Num(lit))
    {
      PrintRoundTrip(Num(lit));
    }
    if f.read(a).Some? && f.read(b).Some? {
      KeysAgreeIff(f, a, b);
    }
  }
}
