/** Option and Result, the shapes used for Go's (value, ok) and (value, error) returns. */
module Wrappers {
  datatype Option<+T> = None | Some(value: T)

  datatype Result<+T, +E> = Ok(value: T) | Err(error: E)
}

module Collections {
  function Elems<T(!new)>(s: seq<T>): (r: set<T>)
    ensures forall x :: x in r <==> x in s
  {
    set x <- s :: x
  }

  ghost predicate Distinct<T>(s: seq<T>) {
    forall i, j | 0 <= i < j < |s| :: s[i] != s[j]
  }

  lemma DistinctConcat<T(!new)>(a: seq<T>, b: seq<T>)
    requires Distinct(a) && Distinct(b) && Elems(a) !! Elems(b)
    ensures Distinct(a + b)
  {
    forall i, j | 0 <= i < j < |a + b|
      ensures (a + b)[i] != (a + b)[j]
    {
      if i < |a| <= j {
        assert a[i] in Elems(a) && b[j - |a|] in Elems(b);
      }
    }
  }
}

/** Go's int64, which is also time.Duration: two's-complement arithmetic that wraps. */
module Int64 {
  const TWO_63 := 0x8000_0000_0000_0000
  const TWO_64 := 0x1_0000_0000_0000_0000
  const MAX := TWO_63 - 1

  /** time.Second, in nanoseconds. */
  const SECOND := 1_000_000_000

  predicate InRange(x: int) {
    -TWO_63 <= x < TWO_63
  }

  type int64 = x: int | InRange(x)

  /** The int64 that holds the low 64 bits of x. */
  function Wrap(x: int): (r: int64)
    ensures InRange(x) ==> r == x
    ensures TWO_63 <= x < TWO_64 ==> r == x - TWO_64
  {
    (x + TWO_63) % TWO_64 - TWO_63
  }

  /** Wrapping keeps the residue. */
  lemma WrapIsCongruent(x: int)
    ensures (Wrap(x) - x) % TWO_64 == 0
  {
    var q := (x + TWO_63) / TWO_64;
    assert Wrap(x) - x == -q * TWO_64;
  }

  function Min(a: int, b: int): int {
    if a <= b then a else b
  }

  function Pow2(k: nat): (p: nat)
    ensures p > k
  {
    if k == 0 then 1 else 2 * Pow2(k - 1)
  }

  /** The k-th term of an exponential backoff, in ideal arithmetic. */
  function Scheduled(initial: int, maximum: int, k: nat): int {
    Min(initial * Pow2(k), maximum)
  }

  lemma ScheduledDoubles(initial: int, maximum: int, k: nat)
    requires 0 < initial <= maximum
    ensures Scheduled(initial, maximum, k + 1) == Min(2 * Scheduled(initial, maximum, k), maximum)
    ensures initial <= Scheduled(initial, maximum, k) <= maximum
  {
    var p := initial * Pow2(k);
    assert initial * Pow2(k + 1) == 2 * p;
    assert p >= initial * 1;
  }
}

/** receiver/poller.go: the self-doubling sleep shared by the two cadence paths of the Poller. */
module Backoff {
  import opened Int64

  /** Initial and maximum of a With*Backoff option. */
  datatype Bounds = Bounds(initial: int64, maximum: int64)

  class Backoff {
    var initial: int64
    var maximum: int64
    var current: int64
    const jittered: bool

    ghost predicate Valid()
      reads this
    {
      0 < initial <= current <= maximum
    }

    /** The state after k calls of Next since the last Reset. */
    ghost predicate After(k: nat)
      reads this
    {
      Valid() && current == Scheduled(initial, maximum, k)
    }

    constructor (initial: int64, maximum: int64, jittered: bool)
      requires 0 < initial <= maximum
      ensures After(0)
      ensures this.initial == initial && this.maximum == maximum && this.jittered == jittered
    {
      this.initial := initial;
      this.maximum := maximum;
      this.current := initial;
      this.jittered := jittered;
      new;
      assert Pow2(0) == 1;
    }

    /** One With*Backoff option: bounds that are not 0 < initial <= maximum are ignored. */
    method Configure(b: Bounds)
      requires Valid()
      modifies this
      ensures Valid()
      ensures 0 < b.initial <= b.maximum ==>
                After(0) && initial == b.initial && maximum == b.maximum
      ensures !(0 < b.initial <= b.maximum) ==>
                initial == old(initial) && maximum == old(maximum) && current == old(current)
    {
      if b.initial > 0 && b.maximum >= b.initial {
        initial, maximum, current := b.initial, b.maximum, b.initial;
      }
      assert Pow2(0) == 1;
    }

    /** Any sequence of options leaves a usable backoff, with the last acceptable bounds in force. */
    method ConfigureAll(options: seq<Bounds>)
      requires After(0)
      modifies this
      ensures After(0)
      ensures Bounds(initial, maximum) == LastAcceptable(options, Bounds(old(initial), old(maximum)))
    {
      for i := 0 to |options|
        invariant After(0)
        invariant Bounds(initial, maximum) == LastAcceptable(options[..i], Bounds(old(initial), old(maximum)))
      {
        assert options[..i + 1][..i] == options[..i];
        Configure(options[i]);
      }
      assert options[..|options|] == options;
    }

    /** The next sleep. `factor` is the random jitter factor; `overflow` is what the platform's
        float-to-integer conversion yields when the jittered value does not fit an int64.
        The wrapping doubling with its two-sided guard stores the ideal next term. */
    method Next(factor: real, overflow: int64) returns (d: int64)
      requires Valid() && 0.8 <= factor <= 1.2
      modifies this`current
      ensures Valid()
      ensures current == Min(2 * old(current), maximum)
      ensures forall k: nat :: old(After(k)) ==> After(k + 1)
      ensures d == if jittered then Jitter(old(current), factor, overflow) else old(current)
    {
      d := current;
      var next := Wrap(current * 2);
      if next > maximum || next < current {
        next := maximum;
      }
      forall k: nat | After(k)
        ensures Scheduled(initial, maximum, k + 1) == next
      {
        ScheduledDoubles(initial, maximum, k);
      }
      current := next;
      if jittered {
        d := Jitter(d, factor, overflow);
      }
    }

    method Reset()
      requires Valid()
      modifies this`current
      ensures After(0)
    {
      current := initial;
      assert Pow2(0) == 1;
    }
  }

  function LastAcceptable(options: seq<Bounds>, default: Bounds): Bounds {
    if options == [] then default
    else
      var b := options[|options| - 1];
      if 0 < b.initial <= b.maximum then b else LastAcceptable(options[..|options| - 1], default)
  }

  /** time.Duration(x): truncation toward zero, for a value that fits. */
  function ToDuration(x: real, overflow: int64): int64 {
    var t := if x >= 0.0 then x.Floor else -(0.0 - x).Floor;
    if InRange(t) then t else overflow
  }

  /** r differs from d by at most a fifth, up to truncation. */
  predicate WithinFifth(r: int, d: int) {
    4 * d <= 5 * r + 5 && 5 * r <= 6 * d
  }

  /** The jittered sleep: d scaled by a factor within a fifth of 1, truncated, never negative. */
  function Jitter(d: int, factor: real, overflow: int64): (r: int)
    requires d > 0 && 0.8 <= factor <= 1.2
    ensures r >= 0
    ensures 6 * d <= 5 * MAX ==> WithinFifth(r, d)
  {
    var x := d as real;
    Settle(d, x, Scaled(x, factor), overflow)
  }

  /** x scaled by the jitter factor. */
  function Scaled(x: real, factor: real): (y: real)
    requires x > 0.0 && 0.8 <= factor <= 1.2
    ensures 0.8 * x <= y <= 1.2 * x
  {
    FactorBounds(x, factor);
    x * factor
  }

  /** time.Duration(y), but not below zero, for a y within a fifth of x, which is d. */
  function Settle(d: int, x: real, y: real, overflow: int64): (r: int)
    requires d > 0 && x == d as real && 0.8 * x <= y <= 1.2 * x
    ensures r >= 0
    ensures 6 * d <= 5 * MAX ==> WithinFifth(r, d)
  {
    var t := ToDuration(y, overflow);
    if t < 0 then 0 else t
  }

  lemma FactorBounds(x: real, factor: real)
    requires x > 0.0 && 0.8 <= factor <= 1.2
    ensures 0.8 * x <= x * factor <= 1.2 * x
  {
    ProductIsNonNegative(x, factor - 0.8);
    ProductIsNonNegative(x, 1.2 - factor);
    assert x * (factor - 0.8) == x * factor - 0.8 * x;
    assert x * (1.2 - factor) == 1.2 * x - x * factor;
  }

  lemma ProductIsNonNegative(a: real, b: real)
    requires a >= 0.0 && b >= 0.0
    ensures a * b >= 0.0
  {
  }

  /** The overflow guard of Next: the stored value drops below its predecessor for exactly the
      doublings that leave the int64 range, and for no other. */
  lemma GuardCatchesExactlyTheWraps(current: int)
    requires 0 < current <= MAX
    ensures Wrap(current * 2) < current <==> current * 2 > MAX
  {
  }
}

/** strconv and fmt on decimal integers. */
module Decimal {
  import opened Wrappers
  import opened Int64

  predicate IsDigits(s: string) {
    forall i | 0 <= i < |s| :: '0' <= s[i] <= '9'
  }

  function DecimalValue(s: string): nat
    requires IsDigits(s)
  {
    if s == "" then 0 else 10 * DecimalValue(s[..|s| - 1]) + (s[|s| - 1] as int - '0' as int)
  }

  /** strconv.ParseInt(s, 10, 64) */
  function ParseInt(s: string): Option<int64> {
    var negative := s != "" && s[0] == '-';
    var digits := if s != "" && (s[0] == '-' || s[0] == '+') then s[1..] else s;
    if digits == "" || !IsDigits(digits) then None
    else
      var v: int := if negative then -(DecimalValue(digits) as int) else DecimalValue(digits);
      if InRange(v) then Some(v) else None
  }

  function Digits(n: nat): string {
    (if n < 10 then "" else Digits(n / 10)) + [('0' as int + n % 10) as char]
  }

  /** An integer as %d prints it. */
  function Show(n: int): string {
    if n < 0 then "-" + Digits(-n) else Digits(n)
  }

  lemma {:induction false} DigitsRoundTrip(n: nat)
    ensures Digits(n) != "" && IsDigits(Digits(n)) && DecimalValue(Digits(n)) == n
    ensures n > 0 ==> Digits(n)[0] != '0'
    ensures n == 0 ==> Digits(n) == "0"
  {
    var s := Digits(n);
    if n >= 10 {
      DigitsRoundTrip(n / 10);
      assert s[..|s| - 1] == Digits(n / 10);
    } else {
      assert s[..|s| - 1] == "";
    }
  }

  lemma ParseIntRoundTrip(n: int)
    requires InRange(n)
    ensures ParseInt(Show(n)) == Some(n)
  {
    hide Digits, DecimalValue;
    DigitsRoundTrip(if n < 0 then -n else n);
    if n < 0 {
      assert Show(n)[1..] == Digits(-n);
    }
  }

  function Zeros(k: nat): string {
    seq(k, _ => '0')
  }

  /** The text is the decimal numeral of n with k zeros before it. */
  ghost predicate Padded(d: string, n: nat) {
    |Digits(n)| <= |d| && d == Zeros(|d| - |Digits(n)|) + Digits(n)
  }

  lemma DigitAfterZero(init: string, last: char, n: nat)
    requires Padded(init, 0) && '0' <= last <= '9' && n == last as int - '0' as int
    ensures Padded(init + [last], n)
  {
    assert Digits(0) == "0" && Digits(n) == [last];
    assert init == Zeros(|init|);
    assert init + [last] == Zeros(|init|) + [last];
  }

  lemma DigitAfterMore(init: string, last: char, m: nat, n: nat)
    requires Padded(init, m) && m > 0 && '0' <= last <= '9' && n == 10 * m + (last as int - '0' as int)
    ensures Padded(init + [last], n)
  {
    hide Zeros;
    assert n / 10 == m && n % 10 == last as int - '0' as int;
    assert Digits(n) == Digits(m) + [last];
    var z := Zeros(|init| - |Digits(m)|);
    assert (z + Digits(m)) + [last] == z + (Digits(m) + [last]);
  }

  lemma {:induction false} DigitsSplit(d: string)
    requires d != "" && IsDigits(d)
    ensures Padded(d, DecimalValue(d))
    decreases |d|
  {
    hide Padded, Digits, Zeros;
    var init, last := d[..|d| - 1], d[|d| - 1];
    assert d == init + [last] && IsDigits(init);
    if init == "" {
      OneDigit(last);
    } else {
      DigitsSplit(init);
      if DecimalValue(init) == 0 {
        DigitAfterZero(init, last, DecimalValue(d));
      } else {
        DigitAfterMore(init, last, DecimalValue(init), DecimalValue(d));
      }
    }
  }

  lemma OneDigit(c: char)
    requires '0' <= c <= '9'
    ensures DecimalValue([c]) == c as int - '0' as int && Padded([c], c as int - '0' as int)
  {
    assert [c][..0] == "" && Zeros(0) + [c] == [c];
  }

  lemma {:induction false} ZerosAddNothing(k: nat, d: string)
    requires IsDigits(d)
    ensures IsDigits(Zeros(k) + d) && DecimalValue(Zeros(k) + d) == DecimalValue(d)
    decreases k + |d|
  {
    var t := Zeros(k) + d;
    if d != "" {
      assert t[..|t| - 1] == Zeros(k) + d[..|d| - 1];
      ZerosAddNothing(k, d[..|d| - 1]);
    } else if k > 0 {
      assert t[..|t| - 1] == Zeros(k - 1) + "";
      ZerosAddNothing(k - 1, "");
    }
  }

  /** A sign, zeros, and the decimal numeral of the value without its sign. */
  ghost predicate Writes(s: string, v: int, sign: string, k: nat) {
    && s == sign + (Zeros(k) + Digits(if v < 0 then -v else v))
    && (sign == "" || sign == "+" || sign == "-")
    && (if sign == "-" then v <= 0 else v >= 0)
  }

  /** What ParseInt takes for the digits. */
  function Unsigned(s: string): string {
    if s != "" && (s[0] == '-' || s[0] == '+') then s[1..] else s
  }

  lemma ParseIntShape(s: string, v: int)
    ensures ParseInt(s) == Some(v) <==>
            && InRange(v) && Unsigned(s) != "" && IsDigits(Unsigned(s))
            && v == if s[0] == '-' then -(DecimalValue(Unsigned(s)) as int) else DecimalValue(Unsigned(s))
  {
    hide DecimalValue, IsDigits;
  }

  /** Which texts are read, and as what: every way to write an integer of 64 bits, and nothing else. */
  lemma ParseIntIff(s: string, v: int)
    ensures ParseInt(s) == Some(v) <==> InRange(v) && exists sign, k :: Writes(s, v, sign, k)
  {
    hide ParseInt, Writes;
    if ParseInt(s) == Some(v) {
      ReadIsWritten(s, v);
    }
    forall sign, k | InRange(v) && Writes(s, v, sign, k)
      ensures ParseInt(s) == Some(v)
    {
      WrittenIsRead(s, v, sign, k);
    }
  }

  lemma ReadIsWritten(s: string, v: int)
    requires ParseInt(s) == Some(v)
    ensures InRange(v) && exists sign, k :: Writes(s, v, sign, k)
  {
    hide Digits, DecimalValue, Zeros, ParseInt, InRange;
    ParseIntShape(s, v);
    var digits := Unsigned(s);
    var sign := if s[0] == '-' || s[0] == '+' then s[..1] else "";
    DigitsSplit(digits);
    assert s == sign + digits && Padded(digits, DecimalValue(digits));
    assert Writes(s, v, sign, |digits| - |Digits(DecimalValue(digits))|);
  }

  lemma WrittenIsRead(s: string, v: int, sign: string, k: nat)
    requires InRange(v) && Writes(s, v, sign, k)
    ensures ParseInt(s) == Some(v)
  {
    hide Digits, DecimalValue, Zeros, ParseInt, InRange;
    ParseIntShape(s, v);
    var n := if v < 0 then -v else v;
    DigitsRoundTrip(n);
    ZerosAddNothing(k, Digits(n));
    SignedParts(s, sign, Zeros(k) + Digits(n));
  }

  lemma SignedParts(s: string, sign: string, digits: string)
    requires s == sign + digits && digits != "" && IsDigits(digits) && (sign == "" || sign == "+" || sign == "-")
    ensures Unsigned(s) == digits && (s[0] == '-' <==> sign == "-")
  {
    assert s[|sign|..] == digits;
    if sign == "" {
      assert s[0] == digits[0];
    }
  }
}
