/** `strconv.Atoi` as Go implements it for a 64-bit `int`: a fast path for
    strings shorter than 19 bytes, and otherwise `ParseInt(s, 10, 0)`, which
    strips one sign and hands the digits to `ParseUint`. An out-of-range
    numeral gives the nearest int64 together with a range error, an
    ill-formed one gives 0 with a syntax error. */
module Strconv {
  import opened GoStrings
  import opened GoInts

  datatype Outcome = Ok | ErrSyntax | ErrRange

  /** The value and the error a conversion returns. */
  datatype Parsed = Parsed(value: int, outcome: Outcome)

  /** ParseUint refuses to multiply an accumulator this large by 10. */
  const Cutoff: int := MaxUint64 / 10 + 1

  predicate IsDigit(c: char) {
    '0' <= c <= '9'
  }

  function Digit(c: char): int
    requires IsDigit(c)
  {
    c as int - '0' as int
  }

  predicate AllDigits(s: String) {
    forall i :: 0 <= i < |s| ==> IsDigit(s[i])
  }

  /** The number a run of decimal digits denotes, accumulated left to right as
      n*10 + d. */
  function DecimalValue(s: String): nat
    requires AllDigits(s)
  {
    if s == [] then 0 else 10 * DecimalValue(s[..|s| - 1]) + Digit(s[|s| - 1])
  }

  function Pow10(k: nat): nat {
    if k == 0 then 1 else 10 * Pow10(k - 1)
  }

  /** The longest prefix of `s` made of digits. */
  function DigitRun(s: String): (run: String)
    ensures run <= s && AllDigits(run)
    ensures run == s || !IsDigit(s[|run|])
  {
    if s == [] || !IsDigit(s[0]) then []
    else
      assert s == [s[0]] + s[1..];
      [s[0]] + DigitRun(s[1..])
  }

  predicate Negative(s: String) {
    s != [] && s[0] == '-'
  }

  /** `s` without its one leading sign, if it has one. */
  function Unsigned(s: String): String {
    if s != [] && (s[0] == '+' || s[0] == '-') then s[1..] else s
  }

  // ---------------------------------------------------------------------------
  // The conversion

  /** The digit loop of ParseUint(s, 10, 64), continuing from accumulator `n`:
      any byte that is not a decimal digit is a syntax error, and the range
      error is reported as soon as the next multiplication or addition would
      leave uint64, before the rest of the string is looked at. */
  function ScanUint(s: String, n: int): (r: Parsed)
    requires 0 <= n <= MaxUint64
    ensures 0 <= r.value <= MaxUint64
  {
    if s == [] then Parsed(n, Ok)
    else if !IsDigit(s[0]) then Parsed(0, ErrSyntax)
    else if n >= Cutoff then Parsed(MaxUint64, ErrRange)
    else if n * 10 + Digit(s[0]) > MaxUint64 then Parsed(MaxUint64, ErrRange)
    else ScanUint(s[1..], n * 10 + Digit(s[0]))
  }

  /** strconv.ParseUint(s, 10, 64). */
  function ParseUint(s: String): Parsed {
    if s == [] then Parsed(0, ErrSyntax) else ScanUint(s, 0)
  }

  /** strconv.ParseInt(s, 10, 64). */
  function ParseInt(s: String): Parsed {
    if s == [] then Parsed(0, ErrSyntax)
    else
      var u := ParseUint(Unsigned(s));
      if u.outcome == ErrSyntax then Parsed(0, ErrSyntax)
      else if !Negative(s) && u.value >= MaxInt64 + 1 then Parsed(MaxInt64, ErrRange)
      else if Negative(s) && u.value > MaxInt64 + 1 then Parsed(MinInt64, ErrRange)
      else Parsed(if Negative(s) then -u.value else u.value, Ok)
  }

  /** The fast path of Atoi for strings of 1 to 18 bytes, which cannot overflow. */
  function FastAtoi(s: String): Parsed
    requires 0 < |s| < 19
  {
    var digits := Unsigned(s);
    if digits == [] || !AllDigits(digits) then Parsed(0, ErrSyntax)
    else
      var n: int := DecimalValue(digits);
      Parsed(if Negative(s) then -n else n, Ok)
  }

  /** strconv.Atoi(s) on a 64-bit platform. */
  function Atoi(s: String): (r: Parsed)
    ensures MinInt64 <= r.value <= MaxInt64
    ensures r.outcome == ErrSyntax ==> r.value == 0
  {
    if 0 < |s| < 19 then
      FastPathAgrees(s);
      FastAtoi(s)
    else ParseInt(s)
  }

  // ---------------------------------------------------------------------------
  // What the conversion computes

  /** `s` is an optionally signed, non-empty run of decimal digits. */
  predicate IsNumeral(s: String) {
    Unsigned(s) != [] && AllDigits(Unsigned(s))
  }

  /** The integer a numeral denotes, unbounded. */
  function NumeralValue(s: String): int
    requires IsNumeral(s)
  {
    var n: int := DecimalValue(Unsigned(s));
    if Negative(s) then -n else n
  }

  /** The int64 nearest to `x`. */
  function Clamp64(x: int): int {
    if x > MaxInt64 then MaxInt64 else if x < MinInt64 then MinInt64 else x
  }

  /** A numeral converts to its value, or to the nearest int64 with a range
      error when its value does not fit. */
  lemma AtoiOfNumeral(s: String)
    requires IsNumeral(s)
    ensures Atoi(s).value == Clamp64(NumeralValue(s))
    ensures Atoi(s).outcome == if MinInt64 <= NumeralValue(s) <= MaxInt64 then Ok else ErrRange
  {
    if 0 < |s| < 19 {
      FastPathAgrees(s);
    }
    ParseIntOfNumeral(s);
  }

  lemma ParseIntOfNumeral(s: String)
    requires IsNumeral(s)
    ensures ParseInt(s).value == Clamp64(NumeralValue(s))
    ensures ParseInt(s).outcome == if MinInt64 <= NumeralValue(s) <= MaxInt64 then Ok else ErrRange
  {
    var digits := Unsigned(s);
    DigitRunOfDigits(digits);
    ScanUintSpec(digits, 0);
    var u := ParseUint(digits);
    assert u == if DecimalValue(digits) > MaxUint64 then Parsed(MaxUint64, ErrRange) else Parsed(DecimalValue(digits), Ok);
  }

  /** Anything else converts to 0 with a syntax error, unless its leading digits
      already exceed uint64: then the range error wins, and the result is the
      int64 bound on the side of its sign. */
  lemma AtoiOfNonNumeral(s: String)
    requires !IsNumeral(s)
    ensures DecimalValue(DigitRun(Unsigned(s))) <= MaxUint64 ==> Atoi(s) == Parsed(0, ErrSyntax)
    ensures DecimalValue(DigitRun(Unsigned(s))) > MaxUint64 ==>
      Atoi(s) == Parsed(if Negative(s) then MinInt64 else MaxInt64, ErrRange)
  {
    var digits := Unsigned(s);
    var run := DigitRun(digits);
    if 0 < |s| < 19 {
      FastPathAgrees(s);
      DecimalBelowPow10(run);
      Pow10Monotone(|run|, 18);
      Pow10Of18();
    }
    if digits != [] {
      ScanUintSpec(digits, 0);
    }
  }

  /** Both paths of Atoi agree wherever the fast one is taken. */
  lemma FastPathAgrees(s: String)
    requires 0 < |s| < 19
    ensures FastAtoi(s) == ParseInt(s)
  {
    var digits := Unsigned(s);
    if digits != [] {
      var run := DigitRun(digits);
      ScanUintSpec(digits, 0);
      DecimalBelowPow10(run);
      Pow10Monotone(|run|, 18);
      Pow10Of18();
      if AllDigits(digits) {
        DigitRunOfDigits(digits);
      }
    }
  }

  /** What the digit loop returns, in terms of the leading digits of `s`. */
  lemma {:induction false} ScanUintSpec(s: String, n: int)
    requires 0 <= n <= MaxUint64
    ensures var run := DigitRun(s);
      var v := n * Pow10(|run|) + DecimalValue(run);
      ScanUint(s, n) ==
        if v > MaxUint64 then Parsed(MaxUint64, ErrRange)
        else if run == s then Parsed(v, Ok)
        else Parsed(0, ErrSyntax)
  {
    if s != [] && IsDigit(s[0]) {
      var d, rest := Digit(s[0]), DigitRun(s[1..]);
      assert DigitRun(s) == [s[0]] + rest;
      DecimalCons(s[0], rest);
      Pow10Positive(|rest|);
      Accumulate(n, d, Pow10(|rest|), DecimalValue(rest));
      if n < Cutoff && n * 10 + d <= MaxUint64 {
        ScanUintSpec(s[1..], n * 10 + d);
        assert s == [s[0]] + s[1..];
      }
    }
  }

  /** One more digit: the accumulator times the remaining scale, plus the rest. */
  lemma Accumulate(n: int, d: int, p: int, r: int)
    requires n >= 0 && d >= 0 && p >= 1 && r >= 0
    ensures n * (10 * p) + (d * p + r) == (n * 10 + d) * p + r
    ensures (n * 10 + d) * p + r >= n * 10 + d
  {
    assert n * (10 * p) == (n * 10) * p;
    assert (n * 10 + d) * p == (n * 10) * p + d * p;
    assert (n * 10 + d) * p >= (n * 10 + d) * 1;
  }

  lemma {:induction false} DecimalCons(c: char, s: String)
    requires IsDigit(c) && AllDigits(s)
    ensures AllDigits([c] + s)
    ensures DecimalValue([c] + s) == Digit(c) * Pow10(|s|) + DecimalValue(s)
  {
    assert AllDigits([c] + s) by {
      assert forall i :: 0 < i <= |s| ==> ([c] + s)[i] == s[i - 1];
    }
    if s != [] {
      var init, last := s[..|s| - 1], Digit(s[|s| - 1]);
      assert ([c] + s)[..|s|] == [c] + init;
      DecimalCons(c, init);
      var d, p, r := Digit(c), Pow10(|init|), DecimalValue(init);
      assert DecimalValue([c] + s) == 10 * (d * p + r) + last;
      assert DecimalValue(s) == 10 * r + last;
      ShiftDigit(d, p, r, last);
    }
  }

  lemma ShiftDigit(d: int, p: int, r: int, last: int)
    ensures 10 * (d * p + r) + last == d * (10 * p) + (10 * r + last)
  {
  }

  lemma DigitRunOfDigits(s: String)
    requires AllDigits(s)
    ensures DigitRun(s) == s
  {
  }

  lemma {:induction false} DecimalBelowPow10(s: String)
    requires AllDigits(s)
    ensures DecimalValue(s) < Pow10(|s|)
  {
    if s != [] {
      DecimalBelowPow10(s[..|s| - 1]);
    }
  }

  lemma {:induction false} Pow10Positive(k: nat)
    ensures Pow10(k) >= 1
  {
    if k > 0 { Pow10Positive(k - 1); }
  }

  lemma Pow10Of18()
    ensures Pow10(18) == 1_000_000_000_000_000_000
  {
    assert Pow10(6) == 1_000_000;
    assert Pow10(12) == 1_000_000_000_000;
  }

  lemma {:induction false} Pow10Monotone(i: nat, j: nat)
    requires i <= j
    ensures Pow10(i) <= Pow10(j)
  {
    if i < j {
      Pow10Monotone(i, j - 1);
      Pow10Positive(j - 1);
    }
  }

  // ---------------------------------------------------------------------------
  // strconv.Itoa, as the reference for the round trip

  function DigitChar(d: int): (c: char)
    requires 0 <= d < 10
    ensures IsDigit(c) && Digit(c) == d
  {
    ('0' as int + d) as char
  }

  /** The decimal numeral of `n`, without sign or leading zeros. */
  function Decimal(n: nat): (s: String)
    ensures s != [] && AllDigits(s) && IsDigit(s[0])
  {
    if n < 10 then [DigitChar(n)] else Decimal(n / 10) + [DigitChar(n % 10)]
  }

  lemma {:induction false} DecimalOfDecimal(n: nat)
    ensures DecimalValue(Decimal(n)) == n
  {
    if n >= 10 {
      DecimalOfDecimal(n / 10);
      var s := Decimal(n);
      assert s[..|s| - 1] == Decimal(n / 10);
    }
  }

  /** Atoi reads back every int64 that Itoa writes for a non-negative value. */
  lemma AtoiOfDecimal(n: nat)
    requires n <= MaxInt64
    ensures Atoi(Decimal(n)) == Parsed(n, Ok)
  {
    DecimalOfDecimal(n);
    AtoiOfNumeral(Decimal(n));
  }
}
