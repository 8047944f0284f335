/** JSON text as encoding/json reads it. */
module Json {
  datatype Json =
    | Null
    | Bool(b: bool)
    | Num(lit: string) // as spelled
    | Str(s: string)
    | Arr(elems: seq<Json>)
    | Obj(members: seq<Member>)

  datatype Member = Member(key: string, value: Json)

  datatype Parsed<+T> = Bad | Good(value: T, next: nat)

  // ---------------------------------------------------------------- numbers

  predicate IsDigit(c: char) {
    '0' <= c <= '9'
  }

  predicate InNumber(c: char) {
    IsDigit(c) || c == '-' || c == '+' || c == '.' || c == 'e' || c == 'E'
  }

  function DigitsEnd(t: string, i: nat): (j: nat)
    requires i <= |t|
    ensures i <= j <= |t|
    decreases |t| - i
  {
    if i < |t| && IsDigit(t[i]) then DigitsEnd(t, i + 1) else i
  }

  /** The end of a non-empty run of digits. */
  function SomeDigits(t: string, i: nat): (r: Parsed<()>)
    requires i <= |t|
    ensures r.Good? ==> i < r.next <= |t|
  {
    var j := DigitsEnd(t, i);
    if j > i then Good((), j) else Bad
  }

  function IntPart(t: string, i: nat): (r: Parsed<()>)
    requires i <= |t|
    ensures r.Good? ==> i < r.next <= |t|
  {
    if i < |t| && t[i] == '0' then Good((), i + 1) else SomeDigits(t, i)
  }

  function FracPart(t: string, i: nat): (r: Parsed<()>)
    requires i <= |t|
    ensures r.Good? ==> i <= r.next <= |t|
  {
    if i < |t| && t[i] == '.' then SomeDigits(t, i + 1) else Good((), i)
  }

  function ExpPart(t: string, i: nat): (r: Parsed<()>)
    requires i <= |t|
    ensures r.Good? ==> i <= r.next <= |t|
  {
    if i < |t| && (t[i] == 'e' || t[i] == 'E') then
      SomeDigits(t, if i + 1 < |t| && (t[i + 1] == '+' || t[i + 1] == '-') then i + 2 else i + 1)
    else Good((), i)
  }

  function NumberEnd(t: string, i: nat): (r: Parsed<()>)
    requires i <= |t|
    ensures r.Good? ==> i < r.next <= |t|
  {
    var a := IntPart(t, if i < |t| && t[i] == '-' then i + 1 else i);
    if a.Bad? then Bad
    else
      var b := FracPart(t, a.next);
      if b.Bad? then Bad else ExpPart(t, b.next)
  }

  predicate IsNumber(lit: string) {
    NumberEnd(lit, 0) == Good((), |lit|)
  }

  // ---------------------------------------------------------------- strings

  function HexDigit(c: char): int {
    if '0' <= c <= '9' then c as int - '0' as int
    else if 'a' <= c <= 'f' then c as int - 'a' as int + 10
    else if 'A' <= c <= 'F' then c as int - 'A' as int + 10
    else -1
  }

  /** The value of the four hexadecimal digits at i, or -1. */
  function Hex4(t: string, i: nat): (n: int)
    ensures -1 <= n < 0x1_0000
  {
    if i + 4 > |t| then -1
    else
      var a, b, c, d := HexDigit(t[i]), HexDigit(t[i + 1]), HexDigit(t[i + 2]), HexDigit(t[i + 3]);
      if a < 0 || b < 0 || c < 0 || d < 0 then -1 else 4096 * a + 256 * b + 16 * c + d
  }

  /** The character of an escape at i (just after the backslash) and where it ends. A surrogate
      without its partner reads as the replacement character. */
  function Unescape(t: string, i: nat): (r: Parsed<char>)
    ensures r.Good? ==> i < r.next <= |t|
  {
    if i >= |t| then Bad
    else
      match t[i]
      case '"' => Good('"', i + 1)
      case '\\' => Good('\\', i + 1)
      case '/' => Good('/', i + 1)
      case 'b' => Good('\U{8}', i + 1)
      case 'f' => Good('\U{C}', i + 1)
      case 'n' => Good('\n', i + 1)
      case 'r' => Good('\r', i + 1)
      case 't' => Good('\t', i + 1)
      case 'u' =>
        var n := Hex4(t, i + 1);
        if n < 0 then Bad
        else if n < 0xD800 || n >= 0xE000 then Good(n as char, i + 5)
        else
          var low := if i + 6 < |t| && t[i + 5] == '\\' && t[i + 6] == 'u' then Hex4(t, i + 7) else -1;
          if n < 0xDC00 && 0xDC00 <= low < 0xE000 then
            Good((0x1_0000 + (n - 0xD800) * 0x400 + (low - 0xDC00)) as char, i + 11)
          else Good('\U{FFFD}', i + 5)
      case _ => Bad
  }

  /** The rest of a string literal from i on, up to and including its closing quote. */
  function ParseChars(t: string, i: nat): (r: Parsed<string>)
    requires i <= |t|
    ensures r.Good? ==> i < r.next <= |t|
    decreases |t| - i
  {
    if i == |t| || t[i] < ' ' then Bad
    else if t[i] == '"' then Good("", i + 1)
    else
      var c := if t[i] == '\\' then Unescape(t, i + 1) else Good(t[i], i + 1);
      if c.Bad? then Bad
      else
        var rest := ParseChars(t, c.next);
        if rest.Bad? then Bad else Good([c.value] + rest.value, rest.next)
  }

  // ---------------------------------------------------------------- values

  predicate IsSpace(c: char) {
    c == ' ' || c == '\t' || c == '\n' || c == '\r'
  }

  function SkipSpace(t: string, i: nat): (j: nat)
    requires i <= |t|
    ensures i <= j <= |t|
    decreases |t| - i
  {
    if i < |t| && IsSpace(t[i]) then SkipSpace(t, i + 1) else i
  }

  predicate At(t: string, i: nat, w: string) {
    i + |w| <= |t| && forall p | 0 <= p < |w| :: w[p] == t[i + p]
  }

  const NULL := ['n', 'u', 'l', 'l']
  const TRUE := ['t', 'r', 'u', 'e']
  const FALSE := ['f', 'a', 'l', 's', 'e']

  function ParseValue(t: string, i: nat): (r: Parsed<Json>)
    requires i <= |t|
    ensures r.Good? ==> i < r.next <= |t|
    decreases |t| - i, 0
  {
    if i == |t| then Bad
    else
      match t[i]
      case '"' =>
        var s := ParseChars(t, i + 1);
        if s.Bad? then Bad else Good(Str(s.value), s.next)
      case '[' =>
        var j := SkipSpace(t, i + 1);
        if j < |t| && t[j] == ']' then Good(Arr([]), j + 1)
        else
          var es := ParseElems(t, j);
          if es.Bad? then Bad else Good(Arr(es.value), es.next)
      case '{' =>
        var j := SkipSpace(t, i + 1);
        if j < |t| && t[j] == '}' then Good(Obj([]), j + 1)
        else
          var ms := ParseMembers(t, j);
          if ms.Bad? then Bad else Good(Obj(ms.value), ms.next)
      case 'n' => if At(t, i, NULL) then Good(Null, i + 4) else Bad
      case 't' => if At(t, i, TRUE) then Good(Bool(true), i + 4) else Bad
      case 'f' => if At(t, i, FALSE) then Good(Bool(false), i + 5) else Bad
      case _ =>
        var n := NumberEnd(t, i);
        if n.Bad? then Bad else Good(Num(t[i..n.next]), n.next)
  }

  /** A non-empty list of elements and its closing bracket. */
  function ParseElems(t: string, i: nat): (r: Parsed<seq<Json>>)
    requires i <= |t|
    ensures r.Good? ==> i < r.next <= |t|
    decreases |t| - i, 1
  {
    var v := ParseValue(t, i);
    if v.Bad? then Bad
    else
      var k := SkipSpace(t, v.next);
      if k == |t| then Bad
      else if t[k] == ']' then Good([v.value], k + 1)
      else if t[k] == ',' then
        var rest := ParseElems(t, SkipSpace(t, k + 1));
        if rest.Bad? then Bad else Good([v.value] + rest.value, rest.next)
      else Bad
  }

  /** A non-empty list of members and its closing brace. */
  function ParseMembers(t: string, i: nat): (r: Parsed<seq<Member>>)
    requires i <= |t|
    ensures r.Good? ==> i < r.next <= |t|
    decreases |t| - i, 1
  {
    if i == |t| || t[i] != '"' then Bad
    else
      var key := ParseChars(t, i + 1);
      if key.Bad? then Bad
      else
        var c := SkipSpace(t, key.next);
        if c == |t| || t[c] != ':' then Bad
        else
          var v := ParseValue(t, SkipSpace(t, c + 1));
          if v.Bad? then Bad
          else
            var m := Member(key.value, v.value);
            var k := SkipSpace(t, v.next);
            if k == |t| then Bad
            else if t[k] == '}' then Good([m], k + 1)
            else if t[k] == ',' then
              var rest := ParseMembers(t, SkipSpace(t, k + 1));
              if rest.Bad? then Bad else Good([m] + rest.value, rest.next)
            else Bad
  }

  /** json.Unmarshal's view of a whole text: one value with nothing but space around it. */
  function Parse(t: string): Parsed<Json> {
    var v := ParseValue(t, SkipSpace(t, 0));
    if v.Good? && SkipSpace(t, v.next) == |t| then v else Bad
  }

  ghost predicate WellFormed(v: Json) {
    match v
    case Num(lit) => IsNumber(lit)
    case Arr(es) => forall e <- es :: WellFormed(e)
    case Obj(ms) => forall m <- ms :: WellFormed(m.value)
    case _ => true
  }

  predicate AllSpace(w: string) {
    forall c <- w :: IsSpace(c)
  }

  // ---------------------------------------------------------------- reading what stands in the text

  lemma AtConcat(t: string, i: nat, a: string, b: string)
    requires At(t, i, a + b)
    ensures At(t, i, a) && At(t, i + |a|, b)
  {
    forall p | 0 <= p < |a|
      ensures a[p] == t[i + p]
    {
      assert (a + b)[p] == t[i + p];
    }
    forall p | 0 <= p < |b|
      ensures b[p] == t[i + |a| + p]
    {
      assert (a + b)[|a| + p] == t[i + (|a| + p)];
    }
  }

  lemma AtHead(t: string, i: nat, w: string)
    requires At(t, i, w) && w != ""
    ensures i < |t| && t[i] == w[0]
  {
    assert w[0] == t[i + 0];
  }

  /** What may follow a value. */
  predicate Ends(t: string, i: nat) {
    i <= |t| && (i < |t| ==> !InNumber(t[i]))
  }

  lemma {:induction false} SkipsAll(t: string, i: nat, w: string)
    requires AllSpace(w) && At(t, i, w) && (i + |w| < |t| ==> !IsSpace(t[i + |w|]))
    ensures SkipSpace(t, i) == i + |w|
    decreases |w|
  {
    if w != "" {
      AtHead(t, i, w);
      assert w == [w[0]] + w[1..];
      AtConcat(t, i, [w[0]], w[1..]);
      SkipsAll(t, i + 1, w[1..]);
    }
  }

  /** Space and then something that is not space. */
  lemma SpaceThen(t: string, i: nat, w: string, rest: string)
    requires AllSpace(w) && At(t, i, w + rest) && rest != "" && !IsSpace(rest[0])
    ensures SkipSpace(t, i) == i + |w| < |t| && At(t, i + |w|, rest) && t[i + |w|] == rest[0]
  {
    AtConcat(t, i, w, rest);
    AtHead(t, i + |w|, rest);
    SkipsAll(t, i, w);
  }

  /** One character, then space, then something that is not space. */
  lemma MarkThen(t: string, i: nat, c: char, w: string, rest: string)
    requires AllSpace(w) && At(t, i, [c] + w + rest) && rest != "" && !IsSpace(rest[0])
    ensures i < |t| && t[i] == c
    ensures SkipSpace(t, i + 1) == i + 1 + |w| < |t| && At(t, i + 1 + |w|, rest) && t[i + 1 + |w|] == rest[0]
  {
    assert [c] + w + rest == [c] + (w + rest);
    AtConcat(t, i, [c], w + rest);
    AtHead(t, i, [c]);
    SpaceThen(t, i + 1, w, rest);
  }

  lemma ElemsStep(t: string, i: nat, v: Json, n: nat, rest: seq<Json>, end: nat)
    requires i <= |t| && ParseValue(t, i) == Good(v, n)
    requires var k := SkipSpace(t, n); k < |t| && t[k] == ',' && ParseElems(t, SkipSpace(t, k + 1)) == Good(rest, end)
    ensures ParseElems(t, i) == Good([v] + rest, end)
  {
    hide ParseValue, SkipSpace;
  }

  lemma MembersLast(t: string, i: nat, key: string, j: nat, v: Json, n: nat)
    requires i < |t| && t[i] == '"' && ParseChars(t, i + 1) == Good(key, j)
    requires var c := SkipSpace(t, j); c < |t| && t[c] == ':' && ParseValue(t, SkipSpace(t, c + 1)) == Good(v, n)
    requires var k := SkipSpace(t, n); k < |t| && t[k] == '}'
    ensures ParseMembers(t, i) == Good([Member(key, v)], SkipSpace(t, n) + 1)
  {
    hide ParseValue, ParseChars, SkipSpace;
  }

  lemma {:induction false} MembersStep(t: string, i: nat, key: string, j: nat, v: Json, n: nat,
                                       rest: seq<Member>, end: nat)
    requires i < |t| && t[i] == '"' && ParseChars(t, i + 1) == Good(key, j)
    requires var c := SkipSpace(t, j); c < |t| && t[c] == ':' && ParseValue(t, SkipSpace(t, c + 1)) == Good(v, n)
    requires var k := SkipSpace(t, n);
      k < |t| && t[k] == ',' && ParseMembers(t, SkipSpace(t, k + 1)) == Good(rest, end)
    ensures ParseMembers(t, i) == Good([Member(key, v)] + rest, end)
  {
    hide ParseValue, ParseChars, SkipSpace;
  }
}
