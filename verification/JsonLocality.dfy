/** Reading a JSON value depends only on the characters it is made of, wherever they stand. */
module JsonLocality {
  import opened Json

  /** The characters of t from i to n stand in u too, d places further on. */
  ghost predicate Agree(t: string, i: nat, n: nat, u: string, d: int) {
    && i <= n <= |t| && 0 <= i + d && n + d <= |u|
    && forall p | i <= p < n :: t[p] == u[p + d]
  }

  /** Nothing in u makes a number that ends at n in t go on. */
  ghost predicate Stops(t: string, n: nat, u: string, d: int) {
    0 <= n + d <= |u| && (n + d == |u| || !InNumber(u[n + d]) || (n < |t| && u[n + d] == t[n]))
  }

  lemma {:induction false} DigitsMove(t: string, i: nat, n: nat, u: string, d: int)
    requires Agree(t, i, n, u, d) && Stops(t, n, u, d) && DigitsEnd(t, i) <= n
    ensures DigitsEnd(u, i + d) == DigitsEnd(t, i) + d
    decreases n - i
  {
    if i < n {
      assert t[i] == u[i + d];
      if IsDigit(t[i]) {
        DigitsMove(t, i + 1, n, u, d);
      }
    }
  }

  function Moved<T>(r: Parsed<T>, d: int): Parsed<T>
    requires r.Good? ==> r.next + d >= 0
  {
    if r.Bad? then Bad else Good(r.value, r.next + d)
  }

  lemma IntMoves(t: string, i: nat, n: nat, u: string, d: int)
    requires Agree(t, i, n, u, d) && Stops(t, n, u, d) && IntPart(t, i).Good? && IntPart(t, i).next <= n
    ensures IntPart(u, i + d) == Moved(IntPart(t, i), d)
  {
    assert t[i] == u[i + d];
    if t[i] != '0' {
      DigitsMove(t, i, n, u, d);
    }
  }

  lemma FracMoves(t: string, i: nat, n: nat, u: string, d: int)
    requires Agree(t, i, n, u, d) && Stops(t, n, u, d) && FracPart(t, i).Good? && FracPart(t, i).next <= n
    ensures FracPart(u, i + d) == Moved(FracPart(t, i), d)
  {
    if i < n {
      assert t[i] == u[i + d];
      if t[i] == '.' {
        DigitsMove(t, i + 1, n, u, d);
      }
    }
  }

  lemma ExpMoves(t: string, i: nat, n: nat, u: string, d: int)
    requires Agree(t, i, n, u, d) && Stops(t, n, u, d) && ExpPart(t, i).Good? && ExpPart(t, i).next <= n
    ensures ExpPart(u, i + d) == Moved(ExpPart(t, i), d)
  {
    if i < n {
      assert t[i] == u[i + d];
      if t[i] == 'e' || t[i] == 'E' {
        assert i + 1 < n && t[i + 1] == u[i + 1 + d];
        if t[i + 1] == '+' || t[i + 1] == '-' {
          DigitsMove(t, i + 2, n, u, d);
        } else {
          DigitsMove(t, i + 1, n, u, d);
        }
      }
    }
  }

  lemma NumberMoves(t: string, i: nat, n: nat, u: string, d: int)
    requires Agree(t, i, n, u, d) && Stops(t, n, u, d) && NumberEnd(t, i).Good? && NumberEnd(t, i).next == n
    ensures NumberEnd(u, i + d) == Moved(NumberEnd(t, i), d)
  {
    hide IntPart, FracPart, ExpPart;
    assert t[i] == u[i + d];
    var m := if t[i] == '-' then i + 1 else i;
    assert Agree(t, m, n, u, d);
    IntMoves(t, m, n, u, d);
    var a := IntPart(t, m).next;
    FracMoves(t, a, n, u, d);
    ExpMoves(t, FracPart(t, a).next, n, u, d);
  }

  lemma HexMoves(t: string, i: nat, n: nat, u: string, d: int)
    requires Agree(t, i, n, u, d) && i + 4 <= n
    ensures Hex4(u, i + d) == Hex4(t, i)
  {
    assert t[i] == u[i + d] && t[i + 1] == u[i + 1 + d] && t[i + 2] == u[i + 2 + d] && t[i + 3] == u[i + 3 + d];
  }

  /** An escape within a string literal that goes on to n; the rest of the literal settles what may be
      looked at beyond the escape. */
  lemma UnescapeMoves(t: string, i: nat, n: nat, u: string, d: int)
    requires Agree(t, i, n, u, d) && Unescape(t, i).Good?
    requires ParseChars(t, Unescape(t, i).next).Good? && ParseChars(t, Unescape(t, i).next).next == n
    ensures Unescape(u, i + d) == Moved(Unescape(t, i), d)
  {
    hide Hex4, ParseChars;
    LiteralGoesOn(t, Unescape(t, i).next);
    assert t[i] == u[i + d];
    if t[i] == 'u' {
      HexMoves(t, i + 1, n, u, d);
      var m := i + 5;
      assert m < n && t[m] == u[m + d];
      if t[m] == '\\' && 0xD800 <= Hex4(t, i + 1) < 0xE000 {
        LowSurrogateInside(t, i, n);
        assert t[m + 1] == u[m + 1 + d];
        if t[m + 1] == 'u' {
          HexMoves(t, i + 7, n, u, d);
        }
      }
    }
  }

  lemma LiteralGoesOn(t: string, m: nat)
    requires m <= |t| && ParseChars(t, m).Good?
    ensures m < ParseChars(t, m).next
  {
  }

  lemma LowSurrogateInside(t: string, i: nat, n: nat)
    requires Unescape(t, i).Good? && t[i] == 'u' && i + 5 < |t| && t[i + 5] == '\\'
    requires ParseChars(t, Unescape(t, i).next).Good? && ParseChars(t, Unescape(t, i).next).next == n
    ensures i + 6 < n && (t[i + 6] == 'u' ==> i + 11 <= n)
  {
    hide Hex4;
    var m := Unescape(t, i).next;
    LiteralGoesOn(t, m);
    if m == i + 5 {
      var e := Unescape(t, m + 1);
      assert e.Good?;
      LiteralGoesOn(t, e.next);
    }
  }

  lemma {:induction false} CharsMove(t: string, i: nat, n: nat, u: string, d: int)
    requires i <= |t| && ParseChars(t, i).Good? && ParseChars(t, i).next == n && Agree(t, i, n, u, d)
    ensures ParseChars(u, i + d) == Moved(ParseChars(t, i), d)
    decreases n - i
  {
    hide Unescape;
    assert t[i] == u[i + d];
    if t[i] == '\\' {
      var c := Unescape(t, i + 1);
      UnescapeMoves(t, i + 1, n, u, d);
      CharsMove(t, c.next, n, u, d);
    } else if t[i] != '"' {
      CharsMove(t, i + 1, n, u, d);
    }
  }

  /** Space up to something that is still among the shared characters. */
  lemma {:induction false} SpaceMoves(t: string, i: nat, n: nat, u: string, d: int)
    requires Agree(t, i, n, u, d) && SkipSpace(t, i) < n
    ensures SkipSpace(u, i + d) == SkipSpace(t, i) + d
    ensures t[SkipSpace(t, i)] == u[SkipSpace(t, i) + d]
    decreases n - i
  {
    assert t[i] == u[i + d];
    if IsSpace(t[i]) {
      SpaceMoves(t, i + 1, n, u, d);
    }
  }

  lemma {:induction false} ValueMoves(t: string, i: nat, n: nat, u: string, d: int)
    requires i <= |t| && ParseValue(t, i).Good? && ParseValue(t, i).next == n
    requires Agree(t, i, n, u, d) && Stops(t, n, u, d)
    ensures ParseValue(u, i + d) == Moved(ParseValue(t, i), d)
    decreases n - i, 3
  {
    hide ParseChars, ParseElems, ParseMembers, NumberEnd, SkipSpace;
    assert t[i] == u[i + d];
    match t[i] {
      case '"' => CharsMove(t, i + 1, n, u, d);
      case '[' => ArrMoves(t, i, n, u, d);
      case '{' => ObjMoves(t, i, n, u, d);
      case 'n' => WordMoves(t, i, n, u, d, NULL);
      case 't' => WordMoves(t, i, n, u, d, TRUE);
      case 'f' => WordMoves(t, i, n, u, d, FALSE);
      case _ =>
        NumberMoves(t, i, n, u, d);
        assert t[i..n] == u[i + d..n + d] by {
          forall p | 0 <= p < n - i
            ensures t[i..n][p] == u[i + d..n + d][p]
          {
            assert t[i + p] == u[i + p + d];
          }
        }
    }
  }

  lemma WordMoves(t: string, i: nat, n: nat, u: string, d: int, w: string)
    requires Agree(t, i, n, u, d) && At(t, i, w) && n == i + |w|
    ensures At(u, i + d, w)
  {
    forall p | 0 <= p < |w|
      ensures w[p] == u[i + d + p]
    {
      assert w[p] == t[i + p] && t[i + p] == u[i + p + d];
    }
  }

  lemma {:induction false} ArrMoves(t: string, i: nat, n: nat, u: string, d: int)
    requires i < |t| && t[i] == '[' && ParseValue(t, i).Good? && ParseValue(t, i).next == n
    requires Agree(t, i, n, u, d)
    ensures ParseValue(u, i + d) == Moved(ParseValue(t, i), d)
    decreases n - i, 2
  {
    hide ParseElems, SkipSpace;
    assert t[i] == u[i + d];
    var j := SkipSpace(t, i + 1);
    SpaceMoves(t, i + 1, n, u, d);
    if t[j] != ']' {
      ElemsMove(t, j, n, u, d);
    }
  }

  lemma {:induction false} ObjMoves(t: string, i: nat, n: nat, u: string, d: int)
    requires i < |t| && t[i] == '{' && ParseValue(t, i).Good? && ParseValue(t, i).next == n
    requires Agree(t, i, n, u, d)
    ensures ParseValue(u, i + d) == Moved(ParseValue(t, i), d)
    decreases n - i, 2
  {
    hide ParseMembers, SkipSpace;
    assert t[i] == u[i + d];
    var j := SkipSpace(t, i + 1);
    SpaceMoves(t, i + 1, n, u, d);
    if t[j] != '}' {
      MembersMove(t, j, n, u, d);
    }
  }

  lemma {:induction false} ElemsMove(t: string, i: nat, n: nat, u: string, d: int)
    requires i <= |t| && ParseElems(t, i).Good? && ParseElems(t, i).next == n && Agree(t, i, n, u, d)
    ensures ParseElems(u, i + d) == Moved(ParseElems(t, i), d)
    decreases n - i, 1
  {
    hide ParseValue, SkipSpace;
    var v := ParseValue(t, i);
    var k := SkipSpace(t, v.next);
    assert t[v.next] == u[v.next + d];
    ValueMoves(t, i, v.next, u, d);
    SpaceMoves(t, v.next, n, u, d);
    if t[k] == ',' {
      var j := SkipSpace(t, k + 1);
      SpaceMoves(t, k + 1, n, u, d);
      ElemsMove(t, j, n, u, d);
    }
  }

  /** The parts of a list of members. */
  lemma MembersParts(t: string, i: nat) returns (key: string, j: nat, v: Json, m: nat)
    requires i <= |t| && ParseMembers(t, i).Good?
    ensures i < |t| && t[i] == '"' && ParseChars(t, i + 1) == Good(key, j)
    ensures var c := SkipSpace(t, j); c < |t| && t[c] == ':' && ParseValue(t, SkipSpace(t, c + 1)) == Good(v, m)
    ensures var k := SkipSpace(t, m);
      && k < |t|
      && if t[k] == '}' then ParseMembers(t, i) == Good([Member(key, v)], k + 1)
         else
           && t[k] == ',' && ParseMembers(t, SkipSpace(t, k + 1)).Good?
           && var rest := ParseMembers(t, SkipSpace(t, k + 1));
           && ParseMembers(t, i) == Good([Member(key, v)] + rest.value, rest.next)
  {
    hide ParseValue, ParseChars, SkipSpace;
    key, j := ParseChars(t, i + 1).value, ParseChars(t, i + 1).next;
    var r := ParseValue(t, SkipSpace(t, SkipSpace(t, j) + 1));
    v, m := r.value, r.next;
  }

  lemma {:induction false} MembersMove(t: string, i: nat, n: nat, u: string, d: int)
    requires i <= |t| && ParseMembers(t, i).Good? && ParseMembers(t, i).next == n && Agree(t, i, n, u, d)
    ensures ParseMembers(u, i + d) == Moved(ParseMembers(t, i), d)
    decreases n - i, 1
  {
    hide ParseValue, ParseChars, ParseMembers, SkipSpace;
    var key, j, v, m := MembersParts(t, i);
    var k := SkipSpace(t, m);
    MemberMoves(t, i, n, u, d, key, j, v, m);
    SpaceMoves(t, m, n, u, d);
    if t[k] == ',' {
      SpaceMoves(t, k + 1, n, u, d);
      MembersMove(t, SkipSpace(t, k + 1), n, u, d);
      var rest := ParseMembers(t, SkipSpace(t, k + 1));
      MembersStep(u, i + d, key, j + d, v, m + d, rest.value, rest.next + d);
    } else {
      MembersLast(u, i + d, key, j + d, v, m + d);
    }
  }

  lemma {:induction false} MemberMoves(
      t: string, i: nat, n: nat, u: string, d: int, key: string, j: nat, v: Json, m: nat)
    requires i < |t| && t[i] == '"' && ParseChars(t, i + 1) == Good(key, j) && Agree(t, i, n, u, d)
    requires var c := SkipSpace(t, j); c < |t| && t[c] == ':' && ParseValue(t, SkipSpace(t, c + 1)) == Good(v, m)
    requires i < m < n
    ensures u[i + d] == '"' && ParseChars(u, i + 1 + d) == Good(key, j + d)
    ensures var c := SkipSpace(u, j + d); c < |u| && u[c] == ':' && ParseValue(u, SkipSpace(u, c + 1)) == Good(v, m + d)
    decreases n - i, 0
  {
    hide ParseValue, ParseChars, SkipSpace;
    assert t[i] == u[i + d] && t[m] == u[m + d];
    CharsMove(t, i + 1, j, u, d);
    SpaceMoves(t, j, n, u, d);
    SpaceMoves(t, SkipSpace(t, j) + 1, n, u, d);
    ValueMoves(t, SkipSpace(t, SkipSpace(t, j) + 1), m, u, d);
  }
}
