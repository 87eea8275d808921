/**
 * Positional numerals in bases 2 to 36 with the digits `0-9a-z`, as
 * written by JavaScript's `Number.prototype.toString(base)` and read by
 * `parseInt(text, base)` on well-formed input.
 */
module Numerals {

  /** The digit of value `d`, lower-case for values above nine. */
  function DigitChar(d: nat): (c: char)
    requires d < 36
    ensures DigitValue(c) == d
  {
    if d < 10 then (48 + d) as char else (87 + d) as char
  }

  /** The value of a digit character in either case; 36 for any other character. */
  function DigitValue(c: char): nat
  {
    if '0' <= c <= '9' then c as int - 48
    else if 'a' <= c <= 'z' then c as int - 87
    else if 'A' <= c <= 'Z' then c as int - 55
    else 36
  }

  predicate IsDigitIn(c: char, base: nat)
  {
    DigitValue(c) < base
  }

  predicate AllDigitsIn(s: string, base: nat)
  {
    forall k :: 0 <= k < |s| ==> IsDigitIn(s[k], base)
  }

  /** A character `toString` itself would write: a decimal digit or a lower-case letter. */
  predicate IsLowerDigit(c: char)
  {
    '0' <= c <= '9' || 'a' <= c <= 'z'
  }

  /** The numeral of `n`, most significant digit first. */
  function ToBase(n: nat, base: nat): (s: string)
    requires 2 <= base <= 36
    ensures |s| >= 1
    ensures AllDigitsIn(s, base)
    ensures forall k :: 0 <= k < |s| ==> IsLowerDigit(s[k])
    ensures s[0] == '0' ==> n == 0 && |s| == 1
    decreases n
  {
    if n < base then [DigitChar(n)]
    else
      DivideStep(n, base);
      ToBase(n / base, base) + [DigitChar(n % base)]
  }

  /** Euclidean division by a base not larger than the dividend. */
  lemma DivideStep(n: nat, base: nat)
    requires 2 <= base <= n
    ensures 1 <= n / base < n && n % base < base
    ensures n == n / base * base + n % base
  {
  }

  lemma MulAtLeast(a: int, b: nat)
    requires a >= 1
    ensures a * b >= b
  {
    var c := a - 1;
    assert a * b == c * b + b;
  }

  /** Division undoes appending a digit. */
  lemma DivideAppended(x: nat, base: nat, v: nat)
    requires 2 <= base && v < base
    ensures (x * base + v) / base == x && (x * base + v) % base == v
  {
    var n := x * base + v;
    var q, r := n / base, n % base;
    assert n == q * base + r && 0 <= r < base;
    assert (q - x) * base == v - r;
    if q > x {
      MulAtLeast(q - x, base);
    } else if q < x {
      MulAtLeast(x - q, base);
    }
  }

  /** The value of a numeral read most significant digit first. */
  function FromBase(s: string, base: nat): nat
    requires 2 <= base <= 36
    requires AllDigitsIn(s, base)
  {
    if |s| == 0 then 0
    else FromBase(s[..|s| - 1], base) * base + DigitValue(s[|s| - 1])
  }

  function Decimal(n: nat): string
  {
    ToBase(n, 10)
  }

  /** A digit string in base ten, as `parseInt(text)` reads it. */
  function ParseDecimal(s: string): nat
    requires AllDigitsIn(s, 10)
  {
    FromBase(s, 10)
  }

  /** Reading back the numeral of `n` gives `n`. */
  lemma {:induction false} FromToBase(n: nat, base: nat)
    requires 2 <= base <= 36
    ensures FromBase(ToBase(n, base), base) == n
    decreases n
  {
    if n >= base {
      DivideStep(n, base);
      FromToBase(n / base, base);
      var s := ToBase(n, base);
      assert s[..|s| - 1] == ToBase(n / base, base);
    }
  }

  /** A numeral whose first digit is not zero is worth at least one. */
  lemma {:induction false} LeadingDigitPositive(s: string, base: nat)
    requires 2 <= base <= 36 && AllDigitsIn(s, base)
    requires |s| >= 1 && DigitValue(s[0]) != 0
    ensures FromBase(s, base) >= 1
  {
    if |s| > 1 {
      LeadingDigitPositive(s[..|s| - 1], base);
    }
  }

  /**
   * The converse of `FromToBase`: a numeral without a leading zero, written
   * with the characters `toString` uses, is the numeral of its own value.
   */
  lemma {:induction false} ToFromBase(s: string, base: nat)
    requires 2 <= base <= 36 && AllDigitsIn(s, base)
    requires |s| >= 1 && (s[0] == '0' ==> |s| == 1)
    requires forall k :: 0 <= k < |s| ==> IsLowerDigit(s[k])
    ensures ToBase(FromBase(s, base), base) == s
  {
    var last := s[|s| - 1];
    var v := DigitValue(last);
    assert v < base;
    assert DigitChar(v) == last;
    if |s| == 1 {
      assert FromBase(s, base) == FromBase([], base) * base + v;
    } else {
      var init := s[..|s| - 1];
      assert s == init + [last];
      ToFromBase(init, base);
      LeadingDigitPositive(init, base);
      var x := FromBase(init, base);
      MulAtLeast(x, base);
      var n := x * base + v;
      assert FromBase(s, base) == n;
      DivideAppended(x, base, v);
      assert n >= base;
      assert ToBase(n, base) == ToBase(x, base) + [DigitChar(v)];
    }
  }

  /** The minute field of a clock: two digits, with a leading zero below ten. */
  function Pad2(m: nat): (s: string)
    requires m < 60
    ensures |s| == 2 && AllDigitsIn(s, 10) && ParseDecimal(s) == m
  {
    FromToBase(m, 10);
    if m < 10 then
      var s := ['0', DigitChar(m)];
      assert s[..1] == "0";
      assert FromBase(s, 10) == FromBase(s[..1], 10) * 10 + m;
      s
    else Decimal(m)
  }
}
