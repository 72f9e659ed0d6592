/** Go's decimal printing (fmt %d, strconv.FormatInt) and strconv.Atoi, on strings as byte sequences. */
module Decimal {
  import opened Prelude

  type Byte = b: int | 0 <= b < 256

  type Bytes = seq<Byte>

  const MIN_INT: int := -0x8000_0000_0000_0000
  const MAX_INT: int := 0x7fff_ffff_ffff_ffff

  const MINUS: Byte := '-' as int
  const PLUS: Byte := '+' as int
  const ZERO: Byte := '0' as int

  predicate IsDigit(b: Byte) { ZERO <= b <= ZERO + 9 }

  function DigitOf(b: Byte): nat
    requires IsDigit(b)
  {
    b - ZERO
  }

  function Digits(n: nat): (s: Bytes)
    ensures s != [] && forall i :: 0 <= i < |s| ==> IsDigit(s[i])
  {
    if n < 10 then [ZERO + n] else Digits(n / 10) + [ZERO + n % 10]
  }

  function Format(n: int): Bytes {
    if n < 0 then [MINUS] + Digits(-n) else Digits(n)
  }

  /** The number that a run of digits denotes. */
  function Value(s: Bytes): (v: nat)
    requires forall i :: 0 <= i < |s| ==> IsDigit(s[i])
  {
    if s == [] then 0 else Value(s[..|s| - 1]) * 10 + DigitOf(s[|s| - 1])
  }

  /** The text behind a sign, if there is one. */
  function Unsigned(s: Bytes): Bytes { if s != [] && (s[0] == MINUS || s[0] == PLUS) then s[1..] else s }

  predicate AllDigits(s: Bytes) { forall i :: 0 <= i < |s| ==> IsDigit(s[i]) }

  /** One optional sign, then digits only, then a range check. */
  function Parse(s: Bytes): Option<int> {
    var negative := s != [] && s[0] == MINUS;
    var digits := Unsigned(s);
    if digits == [] || !AllDigits(digits) then None
    else
      var v: int := if negative then -(Value(digits) as int) else Value(digits);
      if MIN_INT <= v <= MAX_INT then Some(v) else None
  }

  lemma {:induction false} ValueOfDigits(n: nat)
    ensures Value(Digits(n)) == n
  {
    if n >= 10 {
      ValueOfDigits(n / 10);
      var rest := Digits(n / 10);
      assert (rest + [ZERO + n % 10])[..|rest|] == rest;
    }
  }

  /** Every 64-bit integer survives printing and parsing. */
  lemma ParseFormat(n: int)
    requires -0x8000_0000_0000_0000 <= n < 0x8000_0000_0000_0000
    ensures Parse(Format(n)) == Some(n)
  {
    ValueOfDigits(if n < 0 then -n else n);
    if n < 0 { assert Format(n)[1..] == Digits(-n); }
  }

  function Zeros(k: nat): (s: Bytes)
    ensures |s| == k && forall i :: 0 <= i < k ==> IsDigit(s[i])
  {
    seq(k, _ => ZERO)
  }

  /** Digits are some zeros and then what the number is printed as. */
  lemma {:induction false} SpelledOut(d: Bytes)
    requires d != [] && forall i :: 0 <= i < |d| ==> IsDigit(d[i])
    ensures |Digits(Value(d))| <= |d| && d == Zeros(|d| - |Digits(Value(d))|) + Digits(Value(d))
  {
    var n := |d| - 1;
    if n == 0 {
      assert d[..n] == [];
    } else {
      var v, x := Value(d[..n]), DigitOf(d[n]);
      SpelledOut(d[..n]);
      assert d == d[..n] + [d[n]];
      if v == 0 {
        assert d[..n] == Zeros(n - 1) + [ZERO] == Zeros(n);
      } else {
        assert (10 * v + x) / 10 == v && (10 * v + x) % 10 == x;
      }
    }
  }

  lemma {:induction false} ZerosCountNothing(k: nat, d: Bytes)
    requires forall i :: 0 <= i < |d| ==> IsDigit(d[i])
    ensures Value(Zeros(k) + d) == Value(d)
    decreases |d|, k
  {
    var all := Zeros(k) + d;
    if d != [] {
      ZerosCountNothing(k, d[..|d| - 1]);
      assert all[..|all| - 1] == Zeros(k) + d[..|d| - 1];
    } else if k > 0 {
      ZerosCountNothing(k - 1, []);
      assert all[..|all| - 1] == Zeros(k - 1) + [];
    }
  }

  /** Ways to write a number: an optional sign, any zeros, its digits. */
  predicate Spells(s: Bytes, n: int, zeros: nat) {
    || (n >= 0 && s == Zeros(zeros) + Digits(n))
    || (n >= 0 && s == ['+' as int] + Zeros(zeros) + Digits(n))
    || (n <= 0 && s == ['-' as int] + Zeros(zeros) + Digits(-n))
  }

  /** Exactly the spellings of 64-bit integers are read, each as the number that it spells. */
  lemma ParsesIff(s: Bytes, n: int)
    ensures Parse(s) == Some(n) <==>
              -0x8000_0000_0000_0000 <= n < 0x8000_0000_0000_0000 && exists zeros: nat :: Spells(s, n, zeros)
  {
    hide Digits, Value;
    if Parse(s).Some? {
      var d := Unsigned(s);
      assert d != [] && AllDigits(d);
      SpelledOut(d);
      var zeros: nat := |d| - |Digits(Value(d))|;
      if d != s { assert s == [s[0]] + d == [s[0]] + Zeros(zeros) + Digits(Value(d)); }
      assert Parse(s) == Some(n) ==> Spells(s, n, zeros);
    }
    if exists zeros: nat :: Spells(s, n, zeros) {
      var zeros: nat :| Spells(s, n, zeros);
      var m := if n < 0 then -n else n;
      ZerosCountNothing(zeros, Digits(m));
      ValueOfDigits(m);
      SpellingReads(s, n, zeros);
    }
  }

  lemma SpellingReads(s: Bytes, n: int, zeros: nat)
    requires Spells(s, n, zeros) && Value(Zeros(zeros) + Digits(if n < 0 then -n else n)) == if n < 0 then -n else n
    ensures -0x8000_0000_0000_0000 <= n < 0x8000_0000_0000_0000 ==> Parse(s) == Some(n)
  {
    hide Digits, Value;
    var m := if n < 0 then -n else n;
    var d := Zeros(zeros) + Digits(m);
    assert d != [] && IsDigit(d[0]);
    if s == ['+' as int] + Zeros(zeros) + Digits(m) || s == ['-' as int] + Zeros(zeros) + Digits(m) {
      assert s[1..] == d;
    } else {
      assert s == d;
    }
  }

  lemma FormatInjective(m: int, n: int)
    requires Format(m) == Format(n)
    ensures m == n
  {
    hide Digits;
    ValueOfDigits(if m < 0 then -m else m);
    ValueOfDigits(if n < 0 then -n else n);
    assert Format(m)[0] == MINUS <==> m < 0;
    assert Format(n)[0] == MINUS <==> n < 0;
    if m < 0 && n < 0 { assert Format(m)[1..] == Digits(-m) && Format(n)[1..] == Digits(-n); }
  }
}
