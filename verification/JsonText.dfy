/** JSON text as the grammar has it: any space in any gap, and any legal spelling of any character. */
module JsonText {
  import opened Json
  import opened JsonLocality

  // ---------------------------------------------------------------- characters

  /** A way to spell a character inside a string literal. */
  datatype Spelling =
    | Raw(c: char)                     // the character itself
    | Short(letter: char)              // a backslash and a letter
    | Hex(h: string)                   // a backslash, u, and four digits
    | Pair(high: string, low: string)  // two of these, a surrogate pair

  predicate IsHex(h: string) {
    |h| == 4 && Hex4(h, 0) >= 0
  }

  predicate IsHigh(h: string) {
    IsHex(h) && 0xD800 <= Hex4(h, 0) < 0xDC00
  }

  predicate IsLow(h: string) {
    IsHex(h) && 0xDC00 <= Hex4(h, 0) < 0xE000
  }

  /** The sixteen digits, in either case. */
  lemma HexDigitIff(c: char, v: nat)
    requires v < 16
    ensures HexDigit(c) == v <==> c == "0123456789abcdef"[v] || c == "0123456789ABCDEF"[v]
  {
  }

  /** What a backslash and the letter stand for. */
  function Letter(l: char): Parsed<char> {
    match l
    case '"' => Good('"', 0)
    case '\\' => Good('\\', 0)
    case '/' => Good('/', 0)
    case 'b' => Good('\U{8}', 0)
    case 'f' => Good('\U{C}', 0)
    case 'n' => Good('\n', 0)
    case 'r' => Good('\r', 0)
    case 't' => Good('\t', 0)
    case _ => Bad
  }

  predicate Legal(p: Spelling) {
    match p
    case Raw(c) => ' ' <= c && c != '"' && c != '\\'
    case Short(l) => Letter(l).Good?
    case Hex(h) => IsHex(h)
    case Pair(a, b) => IsHigh(a) && IsLow(b)
  }

  function Spelled(p: Spelling): string {
    match p
    case Raw(c) => [c]
    case Short(l) => ['\\', l]
    case Hex(h) => ['\\', 'u'] + h
    case Pair(a, b) => ['\\', 'u'] + a + ['\\', 'u'] + b
  }

  /** The character denoted. A surrogate on its own reads as the replacement character. */
  function Denoted(p: Spelling): char
    requires Legal(p)
  {
    match p
    case Raw(c) => c
    case Short(l) => Letter(l).value
    case Hex(h) => if IsHigh(h) || IsLow(h) then '\U{FFFD}' else Hex4(h, 0) as char
    case Pair(a, b) => (0x1_0000 + (Hex4(a, 0) - 0xD800) * 0x400 + (Hex4(b, 0) - 0xDC00)) as char
  }

  predicate AllLegal(cs: seq<Spelling>) {
    forall i | 0 <= i < |cs| :: Legal(cs[i])
  }

  /** Legal spellings, no two of which are the halves of one pair. */
  predicate LegalString(cs: seq<Spelling>) {
    && AllLegal(cs)
    && forall i | 0 <= i < |cs| - 1 :: !(cs[i].Hex? && IsHigh(cs[i].h) && cs[i + 1].Hex? && IsLow(cs[i + 1].h))
  }

  function SpelledAll(cs: seq<Spelling>): string {
    if cs == [] then "" else Spelled(cs[0]) + SpelledAll(cs[1..])
  }

  function DenotedAll(cs: seq<Spelling>): string
    requires AllLegal(cs)
  {
    if cs == [] then "" else [Denoted(cs[0])] + DenotedAll(cs[1..])
  }

  function Quoted(cs: seq<Spelling>): string {
    ['"'] + SpelledAll(cs) + ['"']
  }

  // ---------------------------------------------------------------- values

  /** A value as it stands in a text, with the space in its gaps. The gap of an item or field is what
      follows its comma, if it has one. */
  datatype Syntax =
    | NullText
    | BoolText(b: bool)
    | NumText(lit: string)
    | StrText(cs: seq<Spelling>)
    | ArrText(gap: string, items: seq<Item>)
    | ObjText(gap: string, fields: seq<Field>)

  datatype Item = Item(value: Syntax, after: string, gap: string)

  datatype Field = Field(key: seq<Spelling>, beforeColon: string, afterColon: string, value: Syntax, after: string,
                         gap: string)

  function Text(s: Syntax): string {
    match s
    case NullText => NULL
    case BoolText(b) => if b then TRUE else FALSE
    case NumText(lit) => lit
    case StrText(cs) => Quoted(cs)
    case ArrText(gap, items) => ['['] + gap + if items == [] then [']'] else ItemsText(items)
    case ObjText(gap, fields) => ['{'] + gap + if fields == [] then ['}'] else FieldsText(fields)
  }

  function ItemsText(items: seq<Item>): string
    requires items != []
  {
    Text(items[0].value) + items[0].after
    + if |items| == 1 then [']'] else [','] + items[0].gap + ItemsText(items[1..])
  }

  function FieldsText(fields: seq<Field>): string
    requires fields != []
  {
    var f := fields[0];
    Quoted(f.key) + (f.beforeColon + ([':'] + f.afterColon + (Text(f.value) + f.after +
    if |fields| == 1 then ['}'] else [','] + f.gap + FieldsText(fields[1..]))))
  }

  /** Gaps hold space, literals are well formed. */
  ghost predicate Fits(s: Syntax) {
    match s
    case NumText(lit) => IsNumber(lit)
    case StrText(cs) => LegalString(cs)
    case ArrText(gap, items) => AllSpace(gap) && ItemsFit(items)
    case ObjText(gap, fields) => AllSpace(gap) && FieldsFit(fields)
    case _ => true
  }

  ghost predicate ItemsFit(items: seq<Item>) {
    forall x <- items :: AllSpace(x.after) && AllSpace(x.gap) && Fits(x.value)
  }

  ghost predicate FieldsFit(fields: seq<Field>) {
    forall x <- fields :: GapsFit(x) && Fits(x.value)
  }

  ghost predicate GapsFit(x: Field) {
    LegalString(x.key) && AllSpace(x.beforeColon) && AllSpace(x.afterColon) && AllSpace(x.after) && AllSpace(x.gap)
  }

  /** The tree that the text spells. */
  ghost function Tree(s: Syntax): Json
    requires Fits(s)
  {
    match s
    case NullText => Null
    case BoolText(b) => Bool(b)
    case NumText(lit) => Num(lit)
    case StrText(cs) => Str(DenotedAll(cs))
    case ArrText(_, items) => Arr(ItemTrees(items))
    case ObjText(_, fields) => Obj(FieldTrees(fields))
  }

  ghost function ItemTrees(items: seq<Item>): seq<Json>
    requires ItemsFit(items)
  {
    if items == [] then [] else [Tree(items[0].value)] + ItemTrees(items[1..])
  }

  ghost function FieldTrees(fields: seq<Field>): seq<Member>
    requires FieldsFit(fields)
  {
    if fields == [] then []
    else
      assert fields[0] in fields;
      [Member(DenotedAll(fields[0].key), Tree(fields[0].value))] + FieldTrees(fields[1..])
  }

  /** The text lays out the tree. */
  ghost predicate Layout(t: string, j: Json) {
    exists before, s, after :: LaidOut(before, s, after) && t == before + Text(s) + after && Tree(s) == j
  }

  ghost predicate LaidOut(before: string, s: Syntax, after: string) {
    AllSpace(before) && Fits(s) && AllSpace(after)
  }

  // ---------------------------------------------------------------- every layout is read

  lemma NumberReads(lit: string, t: string, i: nat)
    requires IsNumber(lit) && At(t, i, lit) && Ends(t, i + |lit|)
    ensures lit != "" && (IsDigit(lit[0]) || lit[0] == '-')
    ensures ParseValue(t, i) == Good(Num(lit), i + |lit|)
  {
    assert Agree(lit, 0, |lit|, t, i);
    NumberMoves(lit, 0, |lit|, t, i);
    AtHead(t, i, lit);
    forall p | 0 <= p < |lit|
      ensures t[i..i + |lit|][p] == lit[p]
    {
      assert lit[p] == t[i + p];
    }
    assert t[i..i + |lit|] == lit;
  }

  lemma HexReads(t: string, i: nat, h: string)
    requires |h| == 4 && At(t, i, h)
    ensures Hex4(t, i) == Hex4(h, 0)
  {
    assert h[0] == t[i + 0] && h[1] == t[i + 1] && h[2] == t[i + 2] && h[3] == t[i + 3];
  }

  predicate LowHalfAt(t: string, i: nat) {
    i + 1 < |t| && t[i] == '\\' && t[i + 1] == 'u' && 0xDC00 <= Hex4(t, i + 2) < 0xE000
  }

  lemma HexUnescapes(t: string, i: nat, h: string)
    requires IsHex(h) && At(t, i, ['\\', 'u'] + h) && (IsHigh(h) ==> !LowHalfAt(t, i + 6))
    ensures t[i] == '\\' && Unescape(t, i + 1) == Good(Denoted(Hex(h)), i + 6)
  {
    hide Hex4;
    var w := ['\\', 'u'] + h;
    assert w[0] == t[i + 0] && w[1] == t[i + 1];
    AtConcat(t, i, ['\\', 'u'], h);
    HexReads(t, i + 2, h);
  }

  lemma PairUnescapes(t: string, i: nat, a: string, b: string)
    requires IsHigh(a) && IsLow(b) && At(t, i, Spelled(Pair(a, b)))
    ensures t[i] == '\\' && Unescape(t, i + 1) == Good(Denoted(Pair(a, b)), i + 12)
  {
    hide Hex4;
    assert Spelled(Pair(a, b)) == (['\\', 'u'] + a) + (['\\', 'u'] + b);
    AtConcat(t, i, ['\\', 'u'] + a, ['\\', 'u'] + b);
    var v, w := ['\\', 'u'] + a, ['\\', 'u'] + b;
    assert v[0] == t[i + 0] && v[1] == t[i + 1] && w[0] == t[i + 6 + 0] && w[1] == t[i + 6 + 1];
    AtConcat(t, i, ['\\', 'u'], a);
    AtConcat(t, i + 6, ['\\', 'u'], b);
    HexReads(t, i + 2, a);
    HexReads(t, i + 8, b);
  }

  /** What the reader makes of one spelling depends on the next one only if it could be a low half. */
  lemma SpellingReads(t: string, i: nat, cs: seq<Spelling>)
    requires cs != [] && LegalString(cs) && At(t, i, SpelledAll(cs) + ['"'])
    ensures var n := i + |Spelled(cs[0])|;
      && i < |t| && ' ' <= t[i] != '"'
      && (if t[i] == '\\' then Unescape(t, i + 1) else Good(t[i], i + 1)) == Good(Denoted(cs[0]), n)
      && At(t, n, SpelledAll(cs[1..]) + ['"'])
  {
    hide Hex4;
    var p, rest := cs[0], SpelledAll(cs[1..]) + ['"'];
    assert SpelledAll(cs) + ['"'] == Spelled(p) + rest;
    AtConcat(t, i, Spelled(p), rest);
    AtHead(t, i, Spelled(p));
    match p {
      case Raw(_) =>
      case Short(_) =>
        assert Spelled(p)[1] == t[i + 1];
      case Hex(h) =>
        if IsHigh(h) {
          NoLowHalf(t, i + 6, cs);
        }
        HexUnescapes(t, i, h);
      case Pair(a, b) =>
        PairUnescapes(t, i, a, b);
    }
  }

  /** What follows a high half that stands alone is no low half. */
  lemma NoLowHalf(t: string, i: nat, cs: seq<Spelling>)
    requires cs != [] && LegalString(cs) && cs[0].Hex? && IsHigh(cs[0].h) && At(t, i, SpelledAll(cs[1..]) + ['"'])
    ensures !LowHalfAt(t, i)
  {
    hide Hex4;
    var rest := SpelledAll(cs[1..]) + ['"'];
    AtHead(t, i, rest);
    if |cs| > 1 {
      var q := cs[1];
      assert Legal(q) && rest == Spelled(q) + (SpelledAll(cs[1..][1..]) + ['"']);
      AtConcat(t, i, Spelled(q), SpelledAll(cs[1..][1..]) + ['"']);
      match q {
        case Raw(_) =>
        case Short(_) =>
          assert Spelled(q)[1] == t[i + 1];
        case Hex(h) =>
          AtConcat(t, i, ['\\', 'u'], h);
          HexReads(t, i + 2, h);
          assert cs[0 + 1] == q;
        case Pair(a, b) =>
          assert Spelled(q) == (['\\', 'u'] + a) + (['\\', 'u'] + b);
          AtConcat(t, i, ['\\', 'u'] + a, ['\\', 'u'] + b);
          AtConcat(t, i, ['\\', 'u'], a);
          HexReads(t, i + 2, a);
      }
    }
  }

  lemma {:induction false} CharsRead(t: string, i: nat, cs: seq<Spelling>)
    requires LegalString(cs) && At(t, i, SpelledAll(cs) + ['"'])
    ensures ParseChars(t, i) == Good(DenotedAll(cs), i + |SpelledAll(cs)| + 1)
    decreases |cs|
  {
    hide Unescape, Denoted, Spelled, Legal;
    if cs == [] {
      AtHead(t, i, SpelledAll(cs) + ['"']);
    } else {
      SpellingReads(t, i, cs);
      TailIsLegal(cs);
      CharsRead(t, i + |Spelled(cs[0])|, cs[1..]);
    }
  }

  lemma TailIsLegal(cs: seq<Spelling>)
    requires cs != [] && LegalString(cs)
    ensures LegalString(cs[1..])
  {
    hide Legal, IsHigh, IsLow;
    var rest := cs[1..];
    assert forall i | 0 <= i < |rest| :: rest[i] == cs[i + 1];
    forall i | 0 <= i < |rest| - 1
      ensures !(rest[i].Hex? && IsHigh(rest[i].h) && rest[i + 1].Hex? && IsLow(rest[i + 1].h))
    {
      assert !(cs[i + 1].Hex? && IsHigh(cs[i + 1].h) && cs[(i + 1) + 1].Hex? && IsLow(cs[(i + 1) + 1].h));
    }
  }

  lemma StringReads(t: string, i: nat, cs: seq<Spelling>)
    requires LegalString(cs) && At(t, i, Quoted(cs))
    ensures i < |t| && t[i] == '"' && ParseChars(t, i + 1) == Good(DenotedAll(cs), i + |Quoted(cs)|)
  {
    hide ParseChars, SpelledAll, DenotedAll, LegalString;
    assert Quoted(cs) == ['"'] + (SpelledAll(cs) + ['"']);
    AtConcat(t, i, ['"'], SpelledAll(cs) + ['"']);
    AtHead(t, i, ['"']);
    CharsRead(t, i + 1, cs);
  }

  lemma TextStarts(s: Syntax)
    requires Fits(s)
    ensures Text(s) != "" && !IsSpace(Text(s)[0]) && Text(s)[0] !in {']', '}', ','}
  {
    if s.NumText? {
      assert At(s.lit, 0, s.lit);
      NumberReads(s.lit, s.lit, 0);
    }
  }

  lemma ItemsStart(items: seq<Item>)
    requires items != [] && Fits(items[0].value)
    ensures ItemsText(items) != "" && ItemsText(items)[0] != ']' && !IsSpace(ItemsText(items)[0])
  {
    hide Text;
    TextStarts(items[0].value);
  }

  lemma FieldsStart(fields: seq<Field>)
    requires fields != []
    ensures FieldsText(fields) != "" && FieldsText(fields)[0] == '"'
  {
    hide Text, SpelledAll;
  }

  lemma {:induction false} TextReads(s: Syntax, t: string, i: nat)
    requires Fits(s) && At(t, i, Text(s)) && Ends(t, i + |Text(s)|)
    ensures ParseValue(t, i) == Good(Tree(s), i + |Text(s)|)
    decreases s, 0
  {
    match s {
      case NullText =>
        AtHead(t, i, NULL);
      case BoolText(b) =>
        AtHead(t, i, if b then TRUE else FALSE);
      case NumText(lit) =>
        NumberReads(lit, t, i);
      case StrText(cs) =>
        StringReads(t, i, cs);
      case ArrText(gap, items) =>
        ArrReads(gap, items, t, i);
      case ObjText(gap, fields) =>
        ObjReads(gap, fields, t, i);
    }
  }

  lemma {:induction false} ArrReads(gap: string, items: seq<Item>, t: string, i: nat)
    requires Fits(ArrText(gap, items)) && At(t, i, Text(ArrText(gap, items)))
    ensures ParseValue(t, i) == Good(Arr(ItemTrees(items)), i + |Text(ArrText(gap, items))|)
    decreases items, 2
  {
    hide SkipSpace, ParseElems, ItemsText, At, ItemTrees;
    if items == [] {
      MarkThen(t, i, '[', gap, [']']);
      NoTrees();
    } else {
      assert items[0] in items;
      ItemsStart(items);
      MarkThen(t, i, '[', gap, ItemsText(items));
      ItemsRead(items, t, i + 1 + |gap|);
    }
  }

  lemma NoTrees()
    ensures ItemTrees([]) == [] && FieldTrees([]) == []
  {
  }

  lemma OneField(x: Field)
    requires GapsFit(x) && Fits(x.value)
    ensures FieldTrees([x]) == [Member(DenotedAll(x.key), Tree(x.value))]
  {
    assert [x][1..] == [];
  }

  lemma {:induction false} ObjReads(gap: string, fields: seq<Field>, t: string, i: nat)
    requires Fits(ObjText(gap, fields)) && At(t, i, Text(ObjText(gap, fields)))
    ensures ParseValue(t, i) == Good(Obj(FieldTrees(fields)), i + |Text(ObjText(gap, fields))|)
    decreases fields, 2
  {
    hide SkipSpace, ParseMembers, FieldsText, At, FieldTrees;
    if fields == [] {
      MarkThen(t, i, '{', gap, ['}']);
      NoTrees();
    } else {
      FieldsStart(fields);
      MarkThen(t, i, '{', gap, FieldsText(fields));
      FieldsRead(fields, t, i + 1 + |gap|);
    }
  }

  /** A value followed by space and one of the closing or separating characters. */
  lemma {:induction false} ValueThen(s: Syntax, w: string, rest: string, t: string, i: nat)
    requires AllSpace(w) && Fits(s) && At(t, i, Text(s) + w + rest)
    requires rest != "" && (rest[0] == ',' || rest[0] == ']' || rest[0] == '}')
    ensures ParseValue(t, i) == Good(Tree(s), i + |Text(s)|)
    ensures var k := i + |Text(s)| + |w|;
      SkipSpace(t, i + |Text(s)|) == k < |t| && At(t, k, rest) && t[k] == rest[0]
    decreases s, 1
  {
    hide Text, ParseValue;
    var p := Text(s);
    assert p + w + rest == p + (w + rest);
    AtConcat(t, i, p, w + rest);
    AtHead(t, i + |p|, w + rest);
    assert w != "" ==> (w + rest)[0] == w[0] && IsSpace(w[0]);
    SpaceThen(t, i + |p|, w, rest);
    TextReads(s, t, i);
  }

  lemma {:induction false} ItemsRead(items: seq<Item>, t: string, i: nat)
    requires items != [] && ItemsFit(items) && At(t, i, ItemsText(items))
    ensures ParseElems(t, i) == Good(ItemTrees(items), i + |ItemsText(items)|)
    decreases items, 1
  {
    hide ParseValue, SkipSpace, At, Text, Fits, Tree;
    var x := items[0];
    assert x in items;
    if |items| == 1 {
      ValueThen(x.value, x.after, [']'], t, i);
      NoTrees();
      assert items[1..] == [] && ItemTrees(items) == [Tree(x.value)];
    } else {
      MoreItems(items, t, i);
    }
  }

  lemma {:induction false} MoreItems(items: seq<Item>, t: string, i: nat)
    requires |items| > 1 && ItemsFit(items) && At(t, i, ItemsText(items))
    ensures ParseElems(t, i) == Good(ItemTrees(items), i + |ItemsText(items)|)
    decreases items, 0
  {
    hide ParseValue, ParseElems, SkipSpace, At, Text, Fits, Tree;
    var x, rest := items[0], items[1..];
    assert x in items && rest[0] in items;
    var more := ItemsText(rest);
    var n := i + |Text(x.value)|;
    var k := n + |x.after|;
    ValueThen(x.value, x.after, [','] + x.gap + more, t, i);
    ItemsStart(rest);
    MarkThen(t, k, ',', x.gap, more);
    ItemsRead(rest, t, k + 1 + |x.gap|);
    ElemsStep(t, i, Tree(x.value), n, ItemTrees(rest), k + 1 + |x.gap| + |more|);
  }

  /** A quoted key, its colon and the start of the field's value. */
  lemma KeyThen(x: Field, rest: string, t: string, i: nat)
    requires GapsFit(x) && rest != "" && !IsSpace(rest[0])
    requires At(t, i, Quoted(x.key) + (x.beforeColon + ([':'] + x.afterColon + rest)))
    ensures i < |t| && t[i] == '"'
    ensures var j := i + |Quoted(x.key)|; var c := j + |x.beforeColon|; var a := c + 1 + |x.afterColon|;
      && ParseChars(t, i + 1) == Good(DenotedAll(x.key), j) && SkipSpace(t, j) == c < |t| && t[c] == ':'
      && SkipSpace(t, c + 1) == a && At(t, a, rest)
  {
    hide Quoted, ParseChars, LegalString;
    var tail := [':'] + x.afterColon + rest;
    AtConcat(t, i, Quoted(x.key), x.beforeColon + tail);
    StringReads(t, i, x.key);
    SpaceThen(t, i + |Quoted(x.key)|, x.beforeColon, tail);
    MarkThen(t, i + |Quoted(x.key)| + |x.beforeColon|, ':', x.afterColon, rest);
  }

  lemma {:induction false} FieldsRead(fields: seq<Field>, t: string, i: nat)
    requires fields != [] && FieldsFit(fields) && At(t, i, FieldsText(fields))
    ensures ParseMembers(t, i) == Good(FieldTrees(fields), i + |FieldsText(fields)|)
    decreases fields, 1
  {
    hide ParseValue, ParseMembers, ParseChars, SkipSpace, At, Text, Quoted, Fits, Tree, DenotedAll;
    var x := fields[0];
    assert x in fields;
    if |fields| == 1 {
      var j := i + |Quoted(x.key)|;
      var a := j + |x.beforeColon| + 1 + |x.afterColon|;
      TextStarts(x.value);
      KeyThen(x, Text(x.value) + x.after + ['}'], t, i);
      ValueThen(x.value, x.after, ['}'], t, a);
      MembersLast(t, i, DenotedAll(x.key), j, Tree(x.value), a + |Text(x.value)|);
      NoTrees();
      assert fields[1..] == [] && FieldTrees(fields) == [Member(DenotedAll(x.key), Tree(x.value))];
    } else {
      MoreFields(fields, t, i);
    }
  }

  lemma {:induction false} MoreFields(fields: seq<Field>, t: string, i: nat)
    requires |fields| > 1 && FieldsFit(fields) && At(t, i, FieldsText(fields))
    ensures ParseMembers(t, i) == Good(FieldTrees(fields), i + |FieldsText(fields)|)
    decreases fields, 0
  {
    hide ParseValue, ParseMembers, ParseChars, SkipSpace, At, Text, Quoted, Fits, Tree, DenotedAll;
    var x, rest := fields[0], fields[1..];
    assert x in fields;
    var more := FieldsText(rest);
    var j := i + |Quoted(x.key)|;
    var a := j + |x.beforeColon| + 1 + |x.afterColon|;
    var n := a + |Text(x.value)|;
    var k := n + |x.after|;
    TextStarts(x.value);
    KeyThen(x, Text(x.value) + x.after + ([','] + x.gap + more), t, i);
    ValueThen(x.value, x.after, [','] + x.gap + more, t, a);
    FieldsStart(rest);
    MarkThen(t, k, ',', x.gap, more);
    FieldsRead(rest, t, k + 1 + |x.gap|);
    MembersStep(t, i, DenotedAll(x.key), j, Tree(x.value), n, FieldTrees(rest), k + 1 + |x.gap| + |more|);
  }

  lemma JoinedAt(before: string, p: string, after: string)
    requires p != "" && !IsSpace(p[0]) && AllSpace(after)
    ensures var t := before + p + after;
      && At(t, 0, before + (p + after)) && At(t, |before|, p) && At(t, |before| + |p|, after)
      && p + after != "" && !IsSpace((p + after)[0])
      && |t| == |before| + |p| + |after| && Ends(t, |before| + |p|)
  {
    if after != "" {
      assert after[0] in after;
    }
  }

  lemma LayoutReads(before: string, s: Syntax, after: string)
    requires LaidOut(before, s, after)
    ensures Parse(before + Text(s) + after) == Good(Tree(s), |before| + |Text(s)|)
  {
    hide ParseValue, Text, Tree, Fits, At, SkipSpace, Ends, AllSpace;
    var p := Text(s);
    var t := before + p + after;
    TextStarts(s);
    JoinedAt(before, p, after);
    SpaceThen(t, 0, before, p + after);
    TextReads(s, t, |before|);
    SkipsAll(t, |before| + |p|, after);
  }

  // ---------------------------------------------------------------- whatever is read is a layout

  lemma AtJoin(t: string, i: nat, a: string, b: string)
    requires At(t, i, a) && At(t, i + |a|, b)
    ensures At(t, i, a + b)
  {
    forall p | 0 <= p < |a + b|
      ensures (a + b)[p] == t[i + p]
    {
      if p >= |a| {
        assert b[p - |a|] == t[i + |a| + (p - |a|)];
      }
    }
  }

  lemma AtSlice(t: string, i: nat, j: nat)
    requires i <= j <= |t|
    ensures At(t, i, t[i..j])
  {
  }

  lemma {:induction false} SkippedIsSpace(t: string, i: nat)
    requires i <= |t|
    ensures AllSpace(t[i..SkipSpace(t, i)]) && At(t, i, t[i..SkipSpace(t, i)])
    decreases |t| - i
  {
    if i < |t| && IsSpace(t[i]) {
      SkippedIsSpace(t, i + 1);
      assert t[i..SkipSpace(t, i)] == [t[i]] + t[i + 1..SkipSpace(t, i + 1)];
    }
    AtSlice(t, i, SkipSpace(t, i));
  }

  /** The spelling of the character that the reader takes at i, which is not a quote. */
  lemma CharIsSpelled(t: string, i: nat) returns (p: Spelling)
    requires i < |t| && ' ' <= t[i] && t[i] != '"'
    requires (if t[i] == '\\' then Unescape(t, i + 1) else Good(t[i], i + 1)).Good?
    ensures Legal(p) && At(t, i, Spelled(p))
    ensures (if t[i] == '\\' then Unescape(t, i + 1) else Good(t[i], i + 1)) == Good(Denoted(p), i + |Spelled(p)|)
    ensures p.Hex? && IsHigh(p.h) ==> !LowHalfAt(t, i + 6)
  {
    hide Hex4;
    if t[i] != '\\' {
      p := Raw(t[i]);
    } else if t[i + 1] != 'u' {
      p := Short(t[i + 1]);
    } else {
      p := UnicodeIsSpelled(t, i);
    }
  }

  lemma UnicodeIsSpelled(t: string, i: nat) returns (p: Spelling)
    requires i + 1 < |t| && t[i] == '\\' && t[i + 1] == 'u' && Unescape(t, i + 1).Good?
    ensures Legal(p) && At(t, i, Spelled(p))
    ensures Unescape(t, i + 1) == Good(Denoted(p), i + |Spelled(p)|)
    ensures p.Hex? && IsHigh(p.h) ==> !LowHalfAt(t, i + 6)
  {
    hide Hex4;
    HexInside(t, i + 2);
    var h := t[i + 2..i + 6];
    AtSlice(t, i + 2, i + 6);
    HexReads(t, i + 2, h);
    AtSlice(t, i, i + 6);
    assert t[i..i + 6] == ['\\', 'u'] + h;
    if IsHigh(h) && LowHalfAt(t, i + 6) {
      HexInside(t, i + 8);
      var l := t[i + 8..i + 12];
      AtSlice(t, i + 8, i + 12);
      HexReads(t, i + 8, l);
      p := Pair(h, l);
      AtSlice(t, i, i + 12);
      assert t[i..i + 12] == Spelled(p);
    } else {
      p := Hex(h);
    }
  }

  lemma HexInside(t: string, i: nat)
    requires Hex4(t, i) >= 0
    ensures i + 4 <= |t|
  {
  }

  lemma LowIsHalf(t: string, i: nat, cs: seq<Spelling>)
    requires cs != [] && cs[0].Hex? && IsLow(cs[0].h) && At(t, i, SpelledAll(cs) + ['"'])
    ensures LowHalfAt(t, i)
  {
    hide Hex4;
    var w, rest := Spelled(cs[0]), SpelledAll(cs[1..]) + ['"'];
    assert SpelledAll(cs) + ['"'] == w + rest;
    AtConcat(t, i, w, rest);
    assert w[0] == t[i + 0] && w[1] == t[i + 1];
    AtConcat(t, i, ['\\', 'u'], cs[0].h);
    HexReads(t, i + 2, cs[0].h);
  }

  lemma {:induction false} CharsAreSpelled(t: string, i: nat) returns (cs: seq<Spelling>)
    requires i <= |t| && ParseChars(t, i).Good?
    ensures LegalString(cs) && At(t, i, SpelledAll(cs) + ['"'])
    ensures ParseChars(t, i) == Good(DenotedAll(cs), i + |SpelledAll(cs)| + 1)
    decreases |t| - i
  {
    hide Unescape, Legal, Denoted, Spelled, LowHalfAt;
    if t[i] == '"' {
      cs := [];
      assert SpelledAll(cs) + ['"'] == ['"'];
    } else {
      var p := CharIsSpelled(t, i);
      var n := i + |Spelled(p)|;
      var rest := CharsAreSpelled(t, n);
      cs := [p] + rest;
      ConsIsLegal(t, i, p, rest);
      assert cs[1..] == rest;
      AtJoin(t, i, Spelled(p), SpelledAll(rest) + ['"']);
      assert SpelledAll(cs) + ['"'] == Spelled(p) + (SpelledAll(rest) + ['"']);
    }
  }

  lemma ConsIsLegal(t: string, i: nat, p: Spelling, rest: seq<Spelling>)
    requires Legal(p) && LegalString(rest) && (p.Hex? && IsHigh(p.h) ==> !LowHalfAt(t, i + 6))
    requires At(t, i + |Spelled(p)|, SpelledAll(rest) + ['"'])
    ensures LegalString([p] + rest)
  {
    hide Legal, LowHalfAt, SpelledAll;
    var cs := [p] + rest;
    assert forall k | 1 <= k < |cs| :: cs[k] == rest[k - 1];
    if p.Hex? && IsHigh(p.h) && rest != [] && rest[0].Hex? && IsLow(rest[0].h) {
      LowIsHalf(t, i + 6, rest);
    }
    forall k | 0 <= k < |cs| - 1
      ensures !(cs[k].Hex? && IsHigh(cs[k].h) && cs[k + 1].Hex? && IsLow(cs[k + 1].h))
    {
      if k > 0 {
        assert cs[k] == rest[k - 1] && cs[k + 1] == rest[(k - 1) + 1];
      }
    }
  }

  /** A string literal at i. */
  lemma StringIsQuoted(t: string, i: nat) returns (cs: seq<Spelling>)
    requires i < |t| && t[i] == '"' && ParseChars(t, i + 1).Good?
    ensures LegalString(cs) && At(t, i, Quoted(cs)) && ParseChars(t, i + 1) == Good(DenotedAll(cs), i + |Quoted(cs)|)
  {
    hide ParseChars, DenotedAll, LegalString;
    cs := CharsAreSpelled(t, i + 1);
    AtJoin(t, i, ['"'], SpelledAll(cs) + ['"']);
    assert Quoted(cs) == ['"'] + (SpelledAll(cs) + ['"']);
  }

  ghost predicate Reads(t: string, i: nat, s: Syntax) {
    Fits(s) && At(t, i, Text(s)) && i <= |t| && ParseValue(t, i) == Good(Tree(s), i + |Text(s)|)
  }

  lemma {:induction false} ValueIsText(t: string, i: nat) returns (s: Syntax)
    requires i <= |t| && ParseValue(t, i).Good?
    ensures Reads(t, i, s)
    decreases |t| - i, 0
  {
    hide ParseChars, ParseElems, ParseMembers, NumberEnd, SkipSpace, Quoted;
    match t[i] {
      case '"' =>
        var cs := StringIsQuoted(t, i);
        s := StrText(cs);
      case '[' =>
        s := ArrIsText(t, i);
      case '{' =>
        s := ObjIsText(t, i);
      case 'n' =>
        s := NullText;
      case 't' =>
        s := BoolText(true);
      case 'f' =>
        s := BoolText(false);
      case _ =>
        NumberIsText(t, i);
        s := NumText(t[i..NumberEnd(t, i).next]);
    }
  }

  lemma NumberIsText(t: string, i: nat)
    requires i <= |t| && NumberEnd(t, i).Good?
    ensures var lit := t[i..NumberEnd(t, i).next]; IsNumber(lit) && At(t, i, lit)
  {
    hide NumberEnd;
    var n := NumberEnd(t, i).next;
    var back: int := i;
    AtSlice(t, i, n);
    assert Agree(t, i, n, t[i..n], -back);
    NumberMoves(t, i, n, t[i..n], -back);
    assert NumberEnd(t[i..n], 0).value == ();
  }

  lemma {:induction false} ArrIsText(t: string, i: nat) returns (s: Syntax)
    requires i < |t| && t[i] == '[' && ParseValue(t, i).Good?
    ensures Reads(t, i, s)
    decreases |t| - i, 0, 0
  {
    hide ParseElems, SkipSpace, ItemTrees, ItemsText;
    var j := SkipSpace(t, i + 1);
    var gap := t[i + 1..j];
    SkippedIsSpace(t, i + 1);
    AtJoin(t, i, ['['], gap);
    if t[j] == ']' {
      s := ArrText(gap, []);
      AtJoin(t, i, ['['] + gap, [']']);
      ArrReads(gap, [], t, i);
    } else {
      var items := ItemsAreText(t, j);
      s := ArrText(gap, items);
      AtJoin(t, i, ['['] + gap, ItemsText(items));
    }
  }

  /** The parts of a list of elements. */
  lemma ElemsParts(t: string, i: nat) returns (v: Json, m: nat)
    requires i <= |t| && ParseElems(t, i).Good?
    ensures ParseValue(t, i) == Good(v, m)
    ensures var k := SkipSpace(t, m);
      && k < |t|
      && if t[k] == ']' then ParseElems(t, i) == Good([v], k + 1)
         else
           && t[k] == ',' && ParseElems(t, SkipSpace(t, k + 1)).Good?
           && var rest := ParseElems(t, SkipSpace(t, k + 1));
           && ParseElems(t, i) == Good([v] + rest.value, rest.next)
  {
    hide ParseValue, SkipSpace;
    v, m := ParseValue(t, i).value, ParseValue(t, i).next;
  }

  lemma {:induction false} ItemsAreText(t: string, i: nat) returns (items: seq<Item>)
    requires i <= |t| && ParseElems(t, i).Good?
    ensures items != [] && ItemsFit(items) && At(t, i, ItemsText(items))
    ensures ParseElems(t, i) == Good(ItemTrees(items), i + |ItemsText(items)|)
    decreases |t| - i, 1
  {
    hide ParseValue, ParseElems, SkipSpace, At, Text, Tree, Fits;
    var v, m := ElemsParts(t, i);
    var x := ValueIsText(t, i);
    var k := SkipSpace(t, m);
    var after := t[m..k];
    SkippedIsSpace(t, m);
    AtJoin(t, i, Text(x), after);
    if t[k] == ']' {
      items := [Item(x, after, "")];
      NoTrees();
      assert items[1..] == [] && ItemTrees(items) == [Tree(x)];
      AtChar(t, k);
      AtJoin(t, i, Text(x) + after, [']']);
    } else {
      var j := SkipSpace(t, k + 1);
      var gap := t[k + 1..j];
      SkippedIsSpace(t, k + 1);
      var rest := ItemsAreText(t, j);
      items := [Item(x, after, gap)] + rest;
      assert items[1..] == rest;
      AtChar(t, k);
      AtJoin(t, k, [','], gap);
      AtJoin(t, k, [','] + gap, ItemsText(rest));
      AtJoin(t, i, Text(x) + after, [','] + gap + ItemsText(rest));
    }
  }

  lemma AtChar(t: string, k: nat)
    requires k < |t|
    ensures At(t, k, [t[k]])
  {
  }

  lemma {:induction false} ObjIsText(t: string, i: nat) returns (s: Syntax)
    requires i < |t| && t[i] == '{' && ParseValue(t, i).Good?
    ensures Reads(t, i, s)
    decreases |t| - i, 0, 0
  {
    hide ParseMembers, SkipSpace, FieldTrees, FieldsText;
    var j := SkipSpace(t, i + 1);
    var gap := t[i + 1..j];
    SkippedIsSpace(t, i + 1);
    AtJoin(t, i, ['{'], gap);
    if t[j] == '}' {
      s := ObjText(gap, []);
      AtJoin(t, i, ['{'] + gap, ['}']);
      ObjReads(gap, [], t, i);
    } else {
      var fields := FieldsAreText(t, j);
      s := ObjText(gap, fields);
      AtJoin(t, i, ['{'] + gap, FieldsText(fields));
    }
  }

  /** A quoted key with its colon, as far as the start of the field's value. */
  lemma KeyIsText(t: string, i: nat, j: nat, rest: string) returns (x: Field)
    requires i < |t| && t[i] == '"' && ParseChars(t, i + 1).Good? && ParseChars(t, i + 1).next == j
    requires SkipSpace(t, j) < |t| && t[SkipSpace(t, j)] == ':' && At(t, SkipSpace(t, SkipSpace(t, j) + 1), rest)
    ensures GapsFit(x) && x.after == "" && x.gap == "" && DenotedAll(x.key) == ParseChars(t, i + 1).value
    ensures var head := Quoted(x.key) + (x.beforeColon + ([':'] + x.afterColon + rest));
      At(t, i, head) && i + |head| == SkipSpace(t, SkipSpace(t, j) + 1) + |rest|
  {
    hide ParseChars, SkipSpace, At, Quoted, DenotedAll, LegalString;
    var key := StringIsQuoted(t, i);
    var c := SkipSpace(t, j);
    var a := SkipSpace(t, c + 1);
    SkippedIsSpace(t, j);
    SkippedIsSpace(t, c + 1);
    var b, d := t[j..c], t[c + 1..a];
    x := Field(key, b, d, NullText, "", "");
    AtChar(t, c);
    AtJoin(t, c, [':'], d);
    AtJoin(t, c, [':'] + d, rest);
    AtJoin(t, j, b, [':'] + d + rest);
    AtJoin(t, i, Quoted(key), b + ([':'] + d + rest));
  }

  lemma {:induction false} FieldsAreText(t: string, i: nat) returns (fields: seq<Field>)
    requires i <= |t| && ParseMembers(t, i).Good?
    ensures fields != [] && FieldsFit(fields) && At(t, i, FieldsText(fields))
    ensures ParseMembers(t, i) == Good(FieldTrees(fields), i + |FieldsText(fields)|)
    decreases |t| - i, 1
  {
    hide ParseValue, ParseChars, ParseMembers, SkipSpace, At, Text, Tree, Fits, Quoted, LegalString, DenotedAll;
    var key, j, v, m := MembersParts(t, i);
    var a := SkipSpace(t, SkipSpace(t, j) + 1);
    var x := ValueIsText(t, a);
    var k := SkipSpace(t, m);
    var after := t[m..k];
    SkippedIsSpace(t, m);
    AtJoin(t, a, Text(x), after);
    AtChar(t, k);
    if t[k] == '}' {
      AtJoin(t, a, Text(x) + after, ['}']);
      var f := KeyIsText(t, i, j, Text(x) + after + ['}']);
      fields := [f.(value := x, after := after)];
      OneField(fields[0]);
    } else {
      var n := SkipSpace(t, k + 1);
      var gap := t[k + 1..n];
      SkippedIsSpace(t, k + 1);
      var rest := FieldsAreText(t, n);
      AtJoin(t, k, [','], gap);
      AtJoin(t, k, [','] + gap, FieldsText(rest));
      AtJoin(t, a, Text(x) + after, [','] + gap + FieldsText(rest));
      var f := KeyIsText(t, i, j, Text(x) + after + ([','] + gap + FieldsText(rest)));
      fields := [f.(value := x, after := after, gap := gap)] + rest;
      assert fields[1..] == rest;
    }
  }

  lemma ReadIsLaidOut(t: string)
    requires Parse(t).Good?
    ensures Layout(t, Parse(t).value)
  {
    hide ParseValue, Text, Tree, Fits, SkipSpace, At;
    var i, n := SkipSpace(t, 0), Parse(t).next;
    var s := ValueIsText(t, i);
    SkippedIsSpace(t, 0);
    SkippedIsSpace(t, n);
    SliceIs(t, i, Text(s));
    assert t[0..i] + t[i..n] + t[n..] == t;
    assert LaidOut(t[0..i], s, t[n..]);
  }

  /** The reader accepts exactly the layouts, and reads each as the tree it lays out. */
  lemma ParseIff(t: string, j: Json)
    ensures Parse(t).Good? && Parse(t).value == j <==> Layout(t, j)
  {
    hide Parse, Text, Tree, Fits;
    if Parse(t).Good? {
      ReadIsLaidOut(t);
    }
    forall before, s, after | LaidOut(before, s, after) && t == before + Text(s) + after && Tree(s) == j
      ensures Parse(t).Good? && Parse(t).value == j
    {
      LayoutReads(before, s, after);
    }
  }

  lemma SliceIs(t: string, i: nat, w: string)
    requires At(t, i, w)
    ensures t[i..i + |w|] == w
  {
    forall p | 0 <= p < |w|
      ensures t[i..i + |w|][p] == w[p]
    {
      assert w[p] == t[i + p];
    }
  }

  // ---------------------------------------------------------------- json.Marshal

  function HexChar(d: int): char
    requires 0 <= d < 16
  {
    if d < 10 then ('0' as int + d) as char else ('a' as int + d - 10) as char
  }

  /** How json.Marshal spells a character. */
  function Marshalled(c: char): Spelling {
    match c
    case '"' => Short('"')
    case '\\' => Short('\\')
    case '\U{8}' => Short('b')
    case '\U{C}' => Short('f')
    case '\n' => Short('n')
    case '\r' => Short('r')
    case '\t' => Short('t')
    case _ =>
      if c < ' ' || c == '<' || c == '>' || c == '&' || c == '\U{2028}' || c == '\U{2029}' then
        var n := c as int;
        Hex([HexChar(n / 4096), HexChar(n / 256 % 16), HexChar(n / 16 % 16), HexChar(n % 16)])
      else Raw(c)
  }

  function MarshalledAll(s: string): seq<Spelling> {
    if s == "" then [] else [Marshalled(s[0])] + MarshalledAll(s[1..])
  }

  function Quote(s: string): string {
    Quoted(MarshalledAll(s))
  }

  /** What json.Marshal leaves out of a string literal: control characters, what HTML gives a meaning,
      and the two line separators that JavaScript trips over. */
  predicate Unsafe(c: char) {
    c < ' ' || c == '<' || c == '>' || c == '&' || c == '\U{2028}' || c == '\U{2029}'
  }

  lemma SpelledIsSafe(c: char)
    ensures forall i | 0 <= i < |Spelled(Marshalled(c))| :: !Unsafe(Spelled(Marshalled(c))[i])
    ensures !Unsafe(c) && c != '"' && c != '\\' ==> Spelled(Marshalled(c)) == [c]
  {
  }

  /** No written string has an unsafe character in it, and one without characters to escape is written
      as it is. */
  lemma {:induction false} WrittenStrings(s: string)
    ensures forall i | 0 <= i < |SpelledAll(MarshalledAll(s))| :: !Unsafe(SpelledAll(MarshalledAll(s))[i])
    ensures (forall i | 0 <= i < |s| :: !Unsafe(s[i]) && s[i] != '"' && s[i] != '\\') ==>
              SpelledAll(MarshalledAll(s)) == s && Quote(s) == ['"'] + s + ['"']
    decreases |s|
  {
    hide Marshalled, Spelled, Unsafe;
    if s != "" {
      SpelledIsSafe(s[0]);
      WrittenStrings(s[1..]);
      assert MarshalledAll(s)[1..] == MarshalledAll(s[1..]);
      assert [s[0]] + s[1..] == s;
    }
  }

  /** The layout json.Marshal gives a tree: no gap has any space. */
  function Bare(j: Json): Syntax {
    match j
    case Null => NullText
    case Bool(b) => BoolText(b)
    case Num(lit) => NumText(lit)
    case Str(s) => StrText(MarshalledAll(s))
    case Arr(es) => ArrText("", BareItems(es))
    case Obj(ms) => ObjText("", BareFields(ms))
  }

  function BareItems(es: seq<Json>): seq<Item> {
    if es == [] then [] else [Item(Bare(es[0]), "", "")] + BareItems(es[1..])
  }

  function BareFields(ms: seq<Member>): seq<Field> {
    if ms == [] then []
    else [Field(MarshalledAll(ms[0].key), "", "", Bare(ms[0].value), "", "")] + BareFields(ms[1..])
  }

  /** json.Marshal */
  function Print(j: Json): string {
    Text(Bare(j))
  }

  lemma HexDigitRoundTrip(d: int)
    requires 0 <= d < 16
    ensures HexDigit(HexChar(d)) == d
  {
  }

  lemma HexSum(n: int)
    requires 0 <= n < 0x1_0000
    ensures 0 <= n / 4096 < 16
    ensures 4096 * (n / 4096) + 256 * (n / 256 % 16) + 16 * (n / 16 % 16) + n % 16 == n
  {
    assert n / 256 == 16 * (n / 4096) + n / 256 % 16;
    assert n / 16 == 16 * (n / 256) + n / 16 % 16;
  }

  lemma HexRoundTrip(a: int, b: int, c: int, d: int)
    requires 0 <= a < 16 && 0 <= b < 16 && 0 <= c < 16 && 0 <= d < 16
    ensures Hex4([HexChar(a), HexChar(b), HexChar(c), HexChar(d)], 0) == 4096 * a + 256 * b + 16 * c + d
  {
    HexDigitRoundTrip(a);
    HexDigitRoundTrip(b);
    HexDigitRoundTrip(c);
    HexDigitRoundTrip(d);
  }

  lemma MarshalledDenotes(c: char)
    ensures Legal(Marshalled(c)) && Denoted(Marshalled(c)) == c
    ensures Marshalled(c).Hex? ==> !IsHigh(Marshalled(c).h)
  {
    hide Hex4, HexChar;
    if Marshalled(c).Hex? {
      var n := c as int;
      HexSum(n);
      HexRoundTrip(n / 4096, n / 256 % 16, n / 16 % 16, n % 16);
    }
  }

  lemma {:induction false} MarshalledAllDenotes(s: string)
    ensures LegalString(MarshalledAll(s)) && DenotedAll(MarshalledAll(s)) == s
    ensures forall i | 0 <= i < |MarshalledAll(s)| && MarshalledAll(s)[i].Hex? :: !IsHigh(MarshalledAll(s)[i].h)
    decreases |s|
  {
    hide Marshalled, Legal, Denoted, IsHigh, IsLow;
    if s != "" {
      MarshalledDenotes(s[0]);
      MarshalledAllDenotes(s[1..]);
      var cs, rest := MarshalledAll(s), MarshalledAll(s[1..]);
      assert cs[1..] == rest && [s[0]] + s[1..] == s;
    }
  }

  lemma {:induction false} BareFits(j: Json)
    requires WellFormed(j)
    ensures Fits(Bare(j)) && Tree(Bare(j)) == j
    decreases j
  {
    match j {
      case Str(s) =>
        MarshalledAllDenotes(s);
      case Arr(es) =>
        BareItemsFit(es);
      case Obj(ms) =>
        BareFieldsFit(ms);
      case _ =>
    }
  }

  lemma {:induction false} BareItemsFit(es: seq<Json>)
    requires forall e <- es :: WellFormed(e)
    ensures ItemsFit(BareItems(es)) && ItemTrees(BareItems(es)) == es
    decreases es
  {
    hide Bare, Fits, Tree;
    if es != [] {
      assert es[0] in es;
      BareFits(es[0]);
      BareItemsFit(es[1..]);
      assert BareItems(es)[1..] == BareItems(es[1..]) && [es[0]] + es[1..] == es;
    }
  }

  lemma {:induction false} BareFieldsFit(ms: seq<Member>)
    requires forall m <- ms :: WellFormed(m.value)
    ensures FieldsFit(BareFields(ms)) && FieldTrees(BareFields(ms)) == ms
    decreases ms
  {
    hide Bare, Fits, Tree, MarshalledAll, LegalString;
    if ms != [] {
      assert ms[0] in ms;
      MarshalledAllDenotes(ms[0].key);
      BareFits(ms[0].value);
      BareFieldsFit(ms[1..]);
      assert BareFields(ms)[1..] == BareFields(ms[1..]) && [ms[0]] + ms[1..] == ms;
    }
  }

  /** What json.Marshal writes is a layout of the tree, so it is read back. */
  lemma PrintRoundTrip(j: Json)
    requires WellFormed(j)
    ensures Layout(Print(j), j) && Parse(Print(j)) == Good(j, |Print(j)|)
    ensures Print(j) != "" && ParseValue(Print(j), 0) == Good(j, |Print(j)|)
  {
    hide Bare, Text, Fits, Tree, ParseValue;
    BareFits(j);
    TextStarts(Bare(j));
    var t := Text(Bare(j));
    assert "" + t + "" == t && LaidOut("", Bare(j), "");
    LayoutReads("", Bare(j), "");
    assert At(t, 0, t);
    TextReads(Bare(j), t, 0);
  }
}
