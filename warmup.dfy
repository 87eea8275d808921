/**
 * The warm-up functions: integer addition, the century of a year,
 * hexadecimal colours, Fibonacci numbers, matrix transposition, radix
 * conversion, a fixed phone pattern, smiley counting and the winner of a
 * finished tic-tac-toe game. Each throws `TypeError` or `RangeError` for
 * the argument kinds it rejects; the model returns them as `Failure`.
 */
module Warmup {
  import opened Wrappers
  import opened Numerals

  // ---------------------------------------------------------------------
  // abProblem

  /** The sum of two integers; anything that is not an integer is a `TypeError`. */
  function AbProblem(a: Value, b: Value): (r: Result<int>)
    ensures r.Failure? <==> !(a.Int? && b.Int?)
    ensures r.Failure? ==> r.error == TypeError
    ensures r.Success? ==> r.value - a.i == b.i
  {
    if a.Int? && b.Int? then Success(a.i + b.i) else Failure(TypeError)
  }

  /** Addition does not depend on the order of its arguments, errors included. */
  lemma AbProblemCommutes(a: Value, b: Value)
    ensures AbProblem(a, b) == AbProblem(b, a)
  {
  }

  // ---------------------------------------------------------------------
  // centuryByYearProblem

  /**
   * The century of a year: the least `c` with `year <= 100 * c`, so year 0
   * is century 0, 100 is century 1 and 101 is century 2.
   */
  function CenturyByYearProblem(year: Value): (r: Result<int>)
    ensures r == Failure(TypeError) <==> year.Str? || year.Other?
    ensures r == Failure(RangeError) <==> year.NonIntegerNumber? || (year.Int? && year.i < 0)
    ensures r.Success? ==> year.Int? && r.value >= 0 && 100 * (r.value - 1) < year.i <= 100 * r.value
  {
    match year
    case Str(_) => Failure(TypeError)
    case Other => Failure(TypeError)
    case NonIntegerNumber => Failure(RangeError)
    case Int(y) => if y < 0 then Failure(RangeError) else Success((y + 99) / 100)
  }

  // ---------------------------------------------------------------------
  // colorsProblem

  /** `#` followed only by hexadecimal digits, in either case. */
  predicate IsHexForm(s: string)
  {
    |s| >= 1 && s[0] == '#' && AllDigitsIn(s[1..], 16)
  }

  /** Every character after the `#` of a hexadecimal form is a digit. */
  lemma HexFormDigits(s: string)
    requires IsHexForm(s)
    ensures forall k :: 1 <= k < |s| ==> IsDigitIn(s[k], 16)
  {
    forall k | 1 <= k < |s| ensures IsDigitIn(s[k], 16) { assert s[k] == s[1..][k - 1]; }
  }

  /** The text `(r, g, b)` with each component in decimal. */
  function RgbText(red: nat, green: nat, blue: nat): string
  {
    "(" + Decimal(red) + ", " + Decimal(green) + ", " + Decimal(blue) + ")"
  }

  /** The value of the two hexadecimal digits `hi lo`. */
  function HexByte(hi: char, lo: char): (v: nat)
    requires IsDigitIn(hi, 16) && IsDigitIn(lo, 16)
    ensures v == 16 * DigitValue(hi) + DigitValue(lo) && v <= 255
  {
    assert [hi, lo][..1] == [hi] && [hi][..0] == [];
    assert FromBase([hi], 16) == DigitValue(hi);
    FromBase([hi, lo], 16)
  }

  /**
   * The colour a `#RRGGBB` or `#RGB` text denotes in the hexadecimal
   * notation of CSS Color Module Level 4, section 5.2: the three-digit
   * form doubles each digit.
   */
  function Colors(s: string): (r: Result<string>)
    ensures |s| != 7 && |s| != 4 ==> r == Failure(RangeError)
    ensures |s| == 7 ==> (r.Success? <==> IsHexForm(s))
    ensures |s| == 7 && !IsHexForm(s) ==> r == Failure(TypeError)
    ensures |s| == 4 ==> (r.Success? <==> IsHexForm(s))
    ensures |s| == 4 && !IsHexForm(s) ==> r == Failure(RangeError)
    ensures |s| == 4 && IsHexForm(s) ==>
      r == Success(RgbText(17 * DigitValue(s[1]), 17 * DigitValue(s[2]), 17 * DigitValue(s[3])))
  {
    if |s| == 7 then
      if IsHexForm(s) then Success(LongColor(s)) else Failure(TypeError)
    else if |s| == 4 then
      if IsHexForm(s) then Success(ShortColor(s)) else Failure(RangeError)
    else Failure(RangeError)
  }

  /** The colour of `#RRGGBB`: each pair of digits is one component. */
  function LongColor(s: string): string
    requires |s| == 7 && IsHexForm(s)
  {
    HexFormDigits(s);
    RgbText(HexByte(s[1], s[2]), HexByte(s[3], s[4]), HexByte(s[5], s[6]))
  }

  /** The colour of `#RGB`: each digit, doubled, is one component. */
  function ShortColor(s: string): (text: string)
    requires |s| == 4 && IsHexForm(s)
    ensures text == RgbText(17 * DigitValue(s[1]), 17 * DigitValue(s[2]), 17 * DigitValue(s[3]))
  {
    HexFormDigits(s);
    var red, green, blue := HexByte(s[1], s[1]), HexByte(s[2], s[2]), HexByte(s[3], s[3]);
    assert red == 17 * DigitValue(s[1]) && green == 17 * DigitValue(s[2]) && blue == 17 * DigitValue(s[3]);
    RgbText(red, green, blue)
  }

  /** `#RGB` denotes the same colour as `#RRGGBB` with every digit doubled. */
  lemma ShortFormDoubles(r: char, g: char, b: char)
    requires IsDigitIn(r, 16) && IsDigitIn(g, 16) && IsDigitIn(b, 16)
    ensures Colors(['#', r, g, b]) == Colors(['#', r, r, g, g, b, b])
  {
    var long := ['#', r, r, g, g, b, b];
    assert IsHexForm(long) by {
      forall k | 0 <= k < 6 ensures IsDigitIn(long[1..][k], 16) { }
    }
    var short := ['#', r, g, b];
    assert IsHexForm(short) by {
      forall k | 0 <= k < 3 ensures IsDigitIn(short[1..][k], 16) { }
    }
  }

  /**
   * `colorsProblem`: a `TypeError` for a non-string, otherwise the colour
   * of the text. A seven-character text that is not `#` and six digits
   * fails on the missing regular-expression match, also a `TypeError`.
   */
  method ColorsProblem(hexColor: Value) returns (r: Result<string>)
    ensures !hexColor.Str? ==> r == Failure(TypeError)
    ensures hexColor.Str? ==> r == Colors(hexColor.s)
    ensures r.Success? ==> exists red, green, blue :: red <= 255 && green <= 255 && blue <= 255 && r.value == RgbText(red, green, blue)
  {
    if !hexColor.Str? {
      return Failure(TypeError);
    }
    var s := hexColor.s;
    var groups: seq<string>;
    if |s| == 7 {
      if !IsHexForm(s) {
        return Failure(TypeError);
      }
      groups := [s[1..3], s[3..5], s[5..7]];
      assert groups[0][0] == s[1] && groups[0][1] == s[2] && groups[1][0] == s[3];
      assert groups[1][1] == s[4] && groups[2][0] == s[5] && groups[2][1] == s[6];
    } else {
      if |s| == 4 {
        if !IsHexForm(s) {
          return Failure(RangeError);
        }
        groups := [s[1..2], s[2..3], s[3..4]];
        groups := [groups[0] + groups[0], groups[1], groups[2]];
        groups := [groups[0], groups[1] + groups[1], groups[2]];
        groups := [groups[0], groups[1], groups[2] + groups[2]];
        assert groups[0] == [s[1], s[1]] && groups[1] == [s[2], s[2]] && groups[2] == [s[3], s[3]];
      } else {
        return Failure(RangeError);
      }
    }
    HexFormDigits(s);
    var red := HexByte(groups[0][0], groups[0][1]);
    var green := HexByte(groups[1][0], groups[1][1]);
    var blue := HexByte(groups[2][0], groups[2][1]);
    r := Success(RgbText(red, green, blue));
    assert r == Colors(s) by {
      if |s| == 7 {
        assert RgbText(red, green, blue) == LongColor(s);
      } else {
        assert RgbText(red, green, blue) == ShortColor(s);
      }
    }
  }

  // ---------------------------------------------------------------------
  // fibonacciProblem

  /** The Fibonacci numbers with F(0) = 0 and F(1) = F(2) = 1. */
  function Fib(n: nat): nat
  {
    if n < 2 then n else Fib(n - 1) + Fib(n - 2)
  }

  /** `fibonacciProblem`: F(n) for an integer `n >= 1`. */
  method FibonacciProblem(n: Value) returns (r: Result<nat>)
    ensures r == Failure(TypeError) <==> n.Str? || n.Other?
    ensures r == Failure(RangeError) <==> n.NonIntegerNumber? || (n.Int? && n.i < 1)
    ensures n.Int? && n.i >= 1 ==> r == Success(Fib(n.i))
  {
    if n.Str? || n.Other? {
      return Failure(TypeError);
    }
    if n.NonIntegerNumber? || n.i < 1 {
      return Failure(RangeError);
    }
    var n0, n1, res := 0, 1, 1;
    var i := 1;
    while i < n.i
      invariant 1 <= i <= n.i
      invariant n0 == Fib(i - 1) && n1 == Fib(i) && res == n1
    {
      res := n0 + n1;
      n0 := n1;
      n1 := res;
      i := i + 1;
    }
    r := Success(res);
  }

  // ---------------------------------------------------------------------
  // matrixProblem

  /** A JavaScript value where an array of cells is expected. */
  datatype Row<T> = Row(cells: seq<T>) | NotArrayRow

  /** A JavaScript value where an array of rows is expected. */
  datatype Grid<T> = Grid(rows: seq<Row<T>>) | NotArrayGrid

  /** A non-empty array of arrays all as long as the first. */
  predicate IsRectangular<T>(m: Grid<T>)
  {
    m.Grid? && |m.rows| > 0 && m.rows[0].Row? &&
    forall i :: 0 <= i < |m.rows| ==> m.rows[i].Row? && |m.rows[i].cells| == |m.rows[0].cells|
  }

  /** The rows of a rectangular grid as plain sequences. */
  function Cells<T>(m: Grid<T>): (c: seq<seq<T>>)
    requires IsRectangular(m)
    ensures |c| == |m.rows| && forall i :: 0 <= i < |c| ==> |c[i]| == |m.rows[0].cells|
  {
    seq(|m.rows|, i requires 0 <= i < |m.rows| => m.rows[i].cells)
  }

  predicate IsMatrix<T>(m: seq<seq<T>>, height: nat, width: nat)
  {
    |m| == height && forall i :: 0 <= i < height ==> |m[i]| == width
  }

  /** The columns of an `h` by `w` matrix as rows. */
  function Transpose<T>(m: seq<seq<T>>, h: nat, w: nat): (t: seq<seq<T>>)
    requires IsMatrix(m, h, w)
    ensures IsMatrix(t, w, h)
    ensures forall j, i :: 0 <= j < w && 0 <= i < h ==> t[j][i] == m[i][j]
  {
    seq(w, j requires 0 <= j < w => seq(h, i requires 0 <= i < h => m[i][j]))
  }

  /** Transposing twice gives back the matrix. */
  lemma TransposeTwice<T>(m: seq<seq<T>>, h: nat, w: nat)
    requires IsMatrix(m, h, w)
    ensures Transpose(Transpose(m, h, w), w, h) == m
  {
    var t := Transpose(Transpose(m, h, w), w, h);
    forall i | 0 <= i < h ensures t[i] == m[i] { }
  }

  /**
   * `matrixProblem`: the transpose of an M by N matrix with N > 0, the
   * input itself when its rows are empty, a `TypeError` otherwise.
   */
  function MatrixProblem<T>(m: Grid<T>): (r: Result<seq<seq<T>>>)
    ensures r.Failure? <==> !IsRectangular(m)
    ensures r.Failure? ==> r.error == TypeError
    ensures r.Success? && |m.rows[0].cells| == 0 ==> r.value == Cells(m)
    ensures r.Success? && |m.rows[0].cells| > 0 ==>
      IsMatrix(r.value, |m.rows[0].cells|, |m.rows|) &&
      forall j, i :: 0 <= j < |m.rows[0].cells| && 0 <= i < |m.rows| ==> r.value[j][i] == m.rows[i].cells[j]
  {
    if !IsRectangular(m) then Failure(TypeError)
    else if |m.rows[0].cells| == 0 then Success(Cells(m))
    else Success(Transpose(Cells(m), |m.rows|, |m.rows[0].cells|))
  }

  // ---------------------------------------------------------------------
  // numberSystemProblem

  /** `n.toString(base)`: a minus sign for negatives, then the numeral of `|n|`. */
  function IntToBase(n: int, base: nat): string
    requires 2 <= base <= 36
  {
    if n < 0 then "-" + ToBase(-n, base) else ToBase(n, base)
  }

  /** What `toString` writes: an optional minus, then lower-case digits without a leading zero, and no `-0`. */
  predicate IsCanonical(s: string, base: nat)
    requires 2 <= base <= 36
  {
    var digits := if |s| > 0 && s[0] == '-' then s[1..] else s;
    |digits| >= 1 && AllDigitsIn(digits, base) &&
    (forall k :: 0 <= k < |digits| ==> IsLowerDigit(digits[k])) &&
    (digits[0] == '0' ==> |digits| == 1 && digits == s)
  }

  /** Reads a canonical numeral back, as `parseInt(s, base)` does. */
  function ParseInt(s: string, base: nat): int
    requires 2 <= base <= 36 && IsCanonical(s, base)
  {
    if s[0] == '-' then -(FromBase(s[1..], base) as int) else FromBase(s, base)
  }

  /** `numberSystemProblem`: the numeral of `n` in `base`, which reads back to `n`. */
  function NumberSystemProblem(n: Value, base: Value): (r: Result<string>)
    ensures r == Failure(TypeError) <==> !(n.Int? && base.Int?)
    ensures r == Failure(RangeError) <==> n.Int? && base.Int? && !(2 <= base.i <= 36)
    ensures r.Success? ==> IsCanonical(r.value, base.i) && ParseInt(r.value, base.i) == n.i
  {
    if !(n.Int? && base.Int?) then Failure(TypeError)
    else if !(2 <= base.i <= 36) then Failure(RangeError)
    else
      var s := IntToBase(n.i, base.i);
      FromToBase(if n.i < 0 then -n.i else n.i, base.i);
      assert n.i < 0 ==> s[1..] == ToBase(-n.i, base.i);
      Success(s)
  }

  /** Every canonical numeral is the one `numberSystemProblem` writes for its value. */
  lemma NumeralsAreCanonical(s: string, base: nat)
    requires 2 <= base <= 36 && IsCanonical(s, base)
    ensures IntToBase(ParseInt(s, base), base) == s
  {
    if s[0] == '-' {
      var digits := s[1..];
      var v: int := FromBase(digits, base);
      assert ToBase(v, base) == digits by {
        ToFromBase(digits, base);
      }
      assert v >= 1 by {
        LeadingDigitPositive(digits, base);
      }
      assert ParseInt(s, base) == -v;
      assert IntToBase(-v, base) == s by {
        assert s == "-" + digits;
      }
    } else {
      assert ToBase(FromBase(s, base), base) == s by {
        ToFromBase(s, base);
      }
    }
  }

  // ---------------------------------------------------------------------
  // phoneProblem

  predicate IsAsciiDigit(c: char)
  {
    '0' <= c <= '9'
  }

  predicate AsciiDigits(s: string)
  {
    forall k :: 0 <= k < |s| ==> IsAsciiDigit(s[k])
  }

  /** The pattern `8-800-ddd-dd-dd` character by character. */
  predicate MatchesPhonePattern(s: string)
  {
    |s| == 15 && s[..6] == "8-800-" &&
    IsAsciiDigit(s[6]) && IsAsciiDigit(s[7]) && IsAsciiDigit(s[8]) && s[9] == '-' &&
    IsAsciiDigit(s[10]) && IsAsciiDigit(s[11]) && s[12] == '-' &&
    IsAsciiDigit(s[13]) && IsAsciiDigit(s[14])
  }

  /** `phoneProblem`: whether a string is a toll-free number in the fixed format. */
  function PhoneProblem(phoneNumber: Value): (r: Result<bool>)
    ensures r.Failure? <==> !phoneNumber.Str?
    ensures r.Failure? ==> r.error == TypeError
  {
    if phoneNumber.Str? then Success(MatchesPhonePattern(phoneNumber.s)) else Failure(TypeError)
  }

  function TollFree(a: string, b: string, c: string): string
  {
    "8-800-" + a + "-" + b + "-" + c
  }

  /** Every number written in the format is accepted. */
  lemma TollFreeAccepted(a: string, b: string, c: string)
    requires |a| == 3 && |b| == 2 && |c| == 2 && AsciiDigits(a) && AsciiDigits(b) && AsciiDigits(c)
    ensures PhoneProblem(Str(TollFree(a, b, c))) == Success(true)
  {
    var s := TollFree(a, b, c);
    assert s[..6] == "8-800-";
    assert s[6..9] == a && s[10..12] == b && s[13..15] == c;
  }

  /** Every accepted string is a number written in the format. */
  lemma AcceptedIsTollFree(s: string)
    requires PhoneProblem(Str(s)) == Success(true)
    ensures AsciiDigits(s[6..9]) && AsciiDigits(s[10..12]) && AsciiDigits(s[13..15])
    ensures s == TollFree(s[6..9], s[10..12], s[13..15])
  {
    assert s == s[..6] + s[6..9] + [s[9]] + s[10..12] + [s[12]] + s[13..15];
  }

  // ---------------------------------------------------------------------
  // smilesProblem

  /** The matches of `pat` that a global regular-expression search finds, scanning left to right without overlap. */
  function Matches(s: string, pat: string): nat
    requires |pat| > 0
  {
    if |s| < |pat| then 0
    else if s[..|pat|] == pat then 1 + Matches(s[|pat|..], pat)
    else Matches(s[1..], pat)
  }

  /** The number of positions at which `pat` occurs in `s`, overlaps included. */
  function Occurrences(s: string, pat: string): nat
  {
    if |s| < |pat| || |s| == 0 then 0
    else (if s[..|pat|] == pat then 1 else 0) + Occurrences(s[1..], pat)
  }

  /** A three-character pattern that cannot overlap a copy of itself. */
  predicate NoSelfOverlap(pat: string)
  {
    |pat| == 3 && pat[1..] != pat[..2] && pat[2..] != pat[..1]
  }

  /** For such a pattern the left-to-right scan misses no occurrence. */
  lemma {:induction false} MatchesAreOccurrences(s: string, pat: string)
    requires NoSelfOverlap(pat)
    ensures Matches(s, pat) == Occurrences(s, pat)
  {
    if |s| >= 3 {
      if s[..3] == pat {
        MatchesAreOccurrences(s[3..], pat);
        assert s[1..][1..] == s[2..] && s[2..][1..] == s[3..];
        if |s| >= 5 {
          assert s[1..][..3] != pat by { assert s[1..][..2] == pat[1..]; }
          assert s[2..][..3] != pat by { assert s[2..][..1] == pat[2..]; }
          assert Occurrences(s[2..], pat) == Occurrences(s[3..], pat);
          assert Occurrences(s[1..], pat) == Occurrences(s[2..], pat);
        } else if |s| == 4 {
          assert s[1..][..3] != pat by { assert s[1..][..2] == pat[1..]; }
          assert Occurrences(s[2..], pat) == 0 && Occurrences(s[3..], pat) == 0;
          assert Occurrences(s[1..], pat) == Occurrences(s[2..], pat);
        } else {
          assert Occurrences(s[1..], pat) == 0 && Occurrences(s[3..], pat) == 0;
        }
      } else {
        MatchesAreOccurrences(s[1..], pat);
      }
    }
  }

  /** Neither smiley can overlap a copy of itself. */
  lemma SmileysDoNotSelfOverlap()
    ensures NoSelfOverlap("(-:") && NoSelfOverlap(":-)")
  {
    assert "(-:"[1..][0] != "(-:"[..2][0] && "(-:"[2..][0] != "(-:"[..1][0];
    assert ":-)"[1..][0] != ":-)"[..2][0] && ":-)"[2..][0] != ":-)"[..1][0];
  }

  /** `smilesProblem`: how many `(-:` and `:-)` a string contains. */
  function SmilesProblem(text: Value): (r: Result<nat>)
    ensures r.Failure? <==> !text.Str?
    ensures r.Failure? ==> r.error == TypeError
    ensures r.Success? ==> r.value == Occurrences(text.s, "(-:") + Occurrences(text.s, ":-)")
  {
    if !text.Str? then Failure(TypeError)
    else
      SmileysDoNotSelfOverlap();
      MatchesAreOccurrences(text.s, "(-:");
      MatchesAreOccurrences(text.s, ":-)");
      Success(Matches(text.s, "(-:") + Matches(text.s, ":-)"))
  }

  // ---------------------------------------------------------------------
  // ticTacToeProblem

  predicate IsBoard(field: seq<seq<char>>)
  {
    |field| == 3 && forall r :: 0 <= r < 3 ==> |field[r]| == 3
  }

  predicate FullRow(field: seq<seq<char>>, r: int, p: char)
    requires IsBoard(field) && 0 <= r < 3
  {
    field[r][0] == p && field[r][1] == p && field[r][2] == p
  }

  predicate FullColumn(field: seq<seq<char>>, c: int, p: char)
    requires IsBoard(field) && 0 <= c < 3
  {
    field[0][c] == p && field[1][c] == p && field[2][c] == p
  }

  /** A full row, column or diagonal of `p`. */
  predicate HasLine(field: seq<seq<char>>, p: char)
    requires IsBoard(field)
  {
    (exists r :: 0 <= r < 3 && FullRow(field, r, p)) ||
    (exists c :: 0 <= c < 3 && FullColumn(field, c, p)) ||
    (field[0][0] == p && field[1][1] == p && field[2][2] == p) ||
    (field[0][2] == p && field[1][1] == p && field[2][0] == p)
  }

  /** The three cells from `(x, y)` in steps of `(dx, dy)` all hold `obj`. */
  predicate Line(field: seq<seq<char>>, x: int, y: int, dx: int, dy: int, obj: char)
    requires IsBoard(field)
    requires 0 <= x < 3 && 0 <= x + 2 * dx < 3 && 0 <= y < 3 && 0 <= y + 2 * dy < 3
  {
    forall k :: 0 <= k < 3 ==> field[x + k * dx][y + k * dy] == obj
  }

  /** The four kinds of line `ticTacToeProblem` walks are the lines of the board. */
  lemma LinesOfBoard(field: seq<seq<char>>, i: int, p: char)
    requires IsBoard(field) && 0 <= i < 3
    ensures Line(field, 0, i, 1, 0, p) <==> FullColumn(field, i, p)
    ensures Line(field, i, 0, 0, 1, p) <==> FullRow(field, i, p)
    ensures Line(field, 0, 0, 1, 1, p) <==> field[0][0] == p && field[1][1] == p && field[2][2] == p
    ensures Line(field, 0, 2, 1, -1, p) <==> field[0][2] == p && field[1][1] == p && field[2][0] == p
  {
    LineCells(field, 0, i, 1, 0, p);
    LineCells(field, i, 0, 0, 1, p);
    LineCells(field, 0, 0, 1, 1, p);
    LineCells(field, 0, 2, 1, -1, p);
  }

  lemma LineCells(field: seq<seq<char>>, x: int, y: int, dx: int, dy: int, obj: char)
    requires IsBoard(field)
    requires 0 <= x < 3 && 0 <= x + 2 * dx < 3 && 0 <= y < 3 && 0 <= y + 2 * dy < 3
    ensures Line(field, x, y, dx, dy, obj) <==>
      field[x][y] == obj && field[x + dx][y + dy] == obj && field[x + 2 * dx][y + 2 * dy] == obj
  {
    if Line(field, x, y, dx, dy, obj) {
      assert field[x + 0 * dx][y + 0 * dy] == obj;
      assert field[x + 1 * dx][y + 1 * dy] == obj;
      assert field[x + 2 * dx][y + 2 * dy] == obj;
    }
  }

  /** `isWinLine`: the three cells from `(x, y)` in steps of `(dx, dy)` all hold `obj`. */
  method IsWinLine(field: seq<seq<char>>, x: int, y: int, dx: int, dy: int, obj: char) returns (win: bool)
    requires IsBoard(field)
    requires 0 <= x < 3 && 0 <= x + 2 * dx < 3 && 0 <= y < 3 && 0 <= y + 2 * dy < 3
    ensures win <==> Line(field, x, y, dx, dy, obj)
  {
    for i := 0 to 3
      invariant forall k :: 0 <= k < i ==> field[x + k * dx][y + k * dy] == obj
    {
      if obj != field[x + i * dx][y + i * dy] {
        return false;
      }
    }
    return true;
  }

  /** `ticTacToeProblem`: `x` if it has a full line, else `o` if it has one, else `draw`. */
  method TicTacToeProblem(field: seq<seq<char>>) returns (w: string)
    requires IsBoard(field)
    ensures w == "x" <==> HasLine(field, 'x')
    ensures w == "o" <==> !HasLine(field, 'x') && HasLine(field, 'o')
    ensures w == "draw" <==> !HasLine(field, 'x') && !HasLine(field, 'o')
  {
    for p := 0 to 2
      invariant p == 1 ==> !HasLine(field, 'x')
      invariant p == 2 ==> !HasLine(field, 'x') && !HasLine(field, 'o')
    {
      var elem := if p == 0 then 'x' else 'o';
      for i := 0 to 3
        invariant forall r :: 0 <= r < i ==> !FullRow(field, r, elem)
        invariant forall c :: 0 <= c < i ==> !FullColumn(field, c, elem)
      {
        LinesOfBoard(field, i, elem);
        var column := IsWinLine(field, 0, i, 1, 0, elem);
        var row := IsWinLine(field, i, 0, 0, 1, elem);
        if column || row {
          return [elem];
        }
      }
      LinesOfBoard(field, 0, elem);
      var diagonal := IsWinLine(field, 0, 0, 1, 1, elem);
      var antiDiagonal := IsWinLine(field, 0, 2, 1, -1, elem);
      if diagonal || antiDiagonal {
        return [elem];
      }
    }
    return "draw";
  }
}
