/** The number grammar of JSON (section 6 of RFC 8259), apart from the scanner that reads it. */
module JsonNumbers {
  import opened Json

  predicate AllDigits(w: string) {
    forall i | 0 <= i < |w| :: IsDigit(w[i])
  }

  predicate IsInt(w: string) {
    w != "" && AllDigits(w) && (w[0] == '0' ==> |w| == 1)
  }

  predicate IsFrac(w: string) {
    w == "" || (|w| > 1 && w[0] == '.' && AllDigits(w[1..]))
  }

  predicate IsExp(w: string) {
    w == "" ||
    (|w| > 1 && (w[0] == 'e' || w[0] == 'E') &&
     var d := if w[1] == '+' || w[1] == '-' then w[2..] else w[1..];
     d != "" && AllDigits(d))
  }

  /** A minus sign or none, an integer without leading zeros, a fraction or none, an exponent or none. */
  predicate Parts(lit: string, sign: string, whole: string, frac: string, exp: string) {
    && (sign == "" || sign == "-") && IsInt(whole) && IsFrac(frac) && IsExp(exp)
    && lit == sign + whole + frac + exp
  }

  lemma {:induction false} DigitsEndAt(t: string, i: nat, n: nat)
    requires i <= n <= |t| && (forall p | i <= p < n :: IsDigit(t[p])) && (n < |t| ==> !IsDigit(t[n]))
    ensures DigitsEnd(t, i) == n
    decreases n - i
  {
    if i < n {
      DigitsEndAt(t, i + 1, n);
    }
  }

  lemma {:induction false} DigitsUpTo(t: string, i: nat)
    requires i <= |t|
    ensures forall p | i <= p < DigitsEnd(t, i) :: IsDigit(t[p])
    decreases |t| - i
  {
    if i < |t| && IsDigit(t[i]) {
      DigitsUpTo(t, i + 1);
    }
  }

  /** The scanner takes the whole of a literal exactly when it is of this form. */
  lemma IsNumberIff(lit: string)
    ensures IsNumber(lit) <==> exists sign, whole, frac, exp :: Parts(lit, sign, whole, frac, exp)
  {
    if IsNumber(lit) {
      NumberShows(lit);
    }
    forall sign, whole, frac, exp | Parts(lit, sign, whole, frac, exp)
      ensures IsNumber(lit)
    {
      PartsAreRead(lit, sign, whole, frac, exp);
    }
  }

  lemma NumberShows(lit: string)
    requires IsNumber(lit)
    ensures exists sign, whole, frac, exp :: Parts(lit, sign, whole, frac, exp)
  {
    var s := if lit[0] == '-' then 1 else 0;
    var a := IntPart(lit, s).next;
    var b := FracPart(lit, a).next;
    IntShows(lit, s);
    FracShows(lit, a);
    ExpShows(lit, b);
    hide IntPart, FracPart, ExpPart, IsInt, IsFrac, IsExp;
    SplitInFour(lit, s, a, b);
    assert Parts(lit, lit[..s], lit[s..a], lit[a..b], lit[b..]);
  }

  lemma SplitInFour(t: string, s: nat, a: nat, b: nat)
    requires s <= a <= b <= |t|
    ensures t == t[..s] + t[s..a] + t[a..b] + t[b..] && t[b..|t|] == t[b..]
  {
  }

  lemma IntShows(t: string, i: nat)
    requires i <= |t| && IntPart(t, i).Good?
    ensures IsInt(t[i..IntPart(t, i).next])
  {
    DigitsUpTo(t, i);
  }

  lemma FracShows(t: string, i: nat)
    requires i <= |t| && FracPart(t, i).Good?
    ensures IsFrac(t[i..FracPart(t, i).next])
  {
    if i < |t| {
      DigitsUpTo(t, i + 1);
    }
  }

  lemma ExpShows(t: string, i: nat)
    requires i <= |t| && ExpPart(t, i).Good?
    ensures IsExp(t[i..ExpPart(t, i).next])
  {
    var n := ExpPart(t, i).next;
    var w := t[i..n];
    if w != "" {
      var j := if i + 1 < |t| && (t[i + 1] == '+' || t[i + 1] == '-') then i + 2 else i + 1;
      DigitsUpTo(t, j);
      assert w[0] == t[i] && w[1] == t[i + 1];
      var d := if w[1] == '+' || w[1] == '-' then w[2..] else w[1..];
      assert d == t[j..n] && n == DigitsEnd(t, j) && n > j;
    }
  }

  lemma PartsAreRead(lit: string, sign: string, whole: string, frac: string, exp: string)
    requires Parts(lit, sign, whole, frac, exp)
    ensures IsNumber(lit)
  {
    var s, a, b := |sign|, |sign + whole|, |sign + whole + frac|;
    assert lit[s..a] == whole && lit[a..b] == frac && lit[b..] == exp;
    assert whole[0] == lit[s];
    IntIsRead(lit, s, a, b);
    FracIsRead(lit, a, b);
    ExpIsRead(lit, b);
    hide IntPart, FracPart, ExpPart;
  }

  /** After the whole part comes nothing, a point or an exponent. */
  lemma IntIsRead(t: string, i: nat, a: nat, b: nat)
    requires i <= a <= b <= |t| && IsInt(t[i..a]) && IsFrac(t[a..b]) && IsExp(t[b..])
    ensures IntPart(t, i) == Good((), a)
  {
    NoDigitNext(t, a, b);
    assert forall p | i <= p < a :: t[p] == t[i..a][p - i];
    DigitsEndAt(t, i, a);
  }

  lemma NoDigitNext(t: string, a: nat, b: nat)
    requires a <= b <= |t| && IsFrac(t[a..b]) && IsExp(t[b..])
    ensures a < |t| ==> !IsDigit(t[a])
    ensures b < |t| ==> !IsDigit(t[b]) && t[b] != '.'
    ensures a == b && a < |t| ==> t[a] != '.'
  {
    if a < b {
      assert t[a..b][0] == t[a];
    }
    if b < |t| {
      assert t[b..][0] == t[b];
    }
  }

  lemma FracIsRead(t: string, a: nat, b: nat)
    requires a <= b <= |t| && IsFrac(t[a..b]) && IsExp(t[b..])
    ensures FracPart(t, a) == Good((), b)
  {
    NoDigitNext(t, a, b);
    if a < b {
      assert t[a..b][0] == t[a];
      assert forall p | a + 1 <= p < b :: t[p] == t[a..b][1..][p - a - 1];
      DigitsEndAt(t, a + 1, b);
    }
  }

  lemma ExpIsRead(t: string, b: nat)
    requires b <= |t| && IsExp(t[b..])
    ensures ExpPart(t, b) == Good((), |t|)
  {
    if b < |t| {
      var w := t[b..];
      assert w[0] == t[b] && w[1] == t[b + 1];
      var j := if w[1] == '+' || w[1] == '-' then b + 2 else b + 1;
      var d := w[j - b..];
      assert forall p | j <= p < |t| :: t[p] == d[p - j];
      DigitsEndAt(t, j, |t|);
    }
  }
}
