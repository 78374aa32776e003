/** Decimal tokens of a course line and what JavaScript's `Number` makes of them. The credits field
    is captured by `\d+(.\d+)?` whose `.` is not escaped, so any character except a line terminator
    may stand between the two digit runs. `Number` gives a value when that character is `.` (a
    decimal fraction) or `e`/`E` (an exponent), and also when the first run is the single digit `0`
    and the character is a radix prefix letter (`0x`, `0o`, `0b`, either case) whose base admits
    every digit of the second run; any other token is NaN. */
module Numbers {
  import opened Wrappers
  import opened Text

  predicate IsDigit(c: char)
  {
    '0' <= c <= '9'
  }

  predicate AllDigits(s: string)
  {
    forall i :: 0 <= i < |s| ==> IsDigit(s[i])
  }

  function DigitValue(c: char): (v: nat)
    requires IsDigit(c)
    ensures v < 10
    ensures v == 0 <==> c == '0'
  {
    c as int - '0' as int
  }

  function Pow10(n: nat): (p: nat)
    ensures p >= 1
  {
    if n == 0 then 1 else 10 * Pow10(n - 1)
  }

  /** The value of a run of decimal digits, leading zeros allowed. */
  function DigitsValue(s: string): (v: nat)
    requires AllDigits(s)
    ensures v < Pow10(|s|)
    ensures v == 0 <==> forall i :: 0 <= i < |s| ==> s[i] == '0'
  {
    if s == [] then 0
    else
      var front := s[..|s| - 1];
      assert forall i :: 0 <= i < |front| ==> front[i] == s[i];
      10 * DigitsValue(front) + DigitValue(s[|s| - 1])
  }

  /** Digit runs written one after the other form a digit run. */
  lemma AllDigitsAppend(a: string, b: string)
    requires AllDigits(a) && AllDigits(b)
    ensures AllDigits(a + b)
  {
    assert forall i :: 0 <= i < |a + b| ==> (a + b)[i] == if i < |a| then a[i] else b[i - |a|];
  }

  /** `w` times ten to the `j`: `w` followed by `j` zero digits. */
  function TimesPow10(w: nat, j: nat): (v: nat)
    ensures v >= w
    ensures v == 0 <==> w == 0
  {
    if j == 0 then w else 10 * TimesPow10(w, j - 1)
  }

  /** Scaling by ten first is scaling by one power of ten fewer afterwards. */
  lemma {:induction false} TimesPow10Shift(w: nat, j: nat)
    requires j >= 1
    ensures TimesPow10(w, j) == TimesPow10(10 * w, j - 1)
  {
    if j > 1 {
      TimesPow10Shift(w, j - 1);
    }
  }

  lemma {:induction false} Pow10IsTimesPow10(k: nat)
    ensures Pow10(k) == TimesPow10(1, k)
  {
    if k > 0 {
      Pow10IsTimesPow10(k - 1);
    }
  }

  /** Reading two digit runs written one after the other: the first run is shifted left by the
      length of the second. */
  lemma {:induction false} DigitsAppend(a: string, b: string)
    requires AllDigits(a) && AllDigits(b)
    ensures AllDigits(a + b)
    ensures DigitsValue(a + b) == TimesPow10(DigitsValue(a), |b|) + DigitsValue(b)
  {
    AllDigitsAppend(a, b);
    if b == [] {
      assert a + b == a;
    } else {
      var front := b[..|b| - 1];
      var last := b[|b| - 1];
      assert AllDigits(front) by {
        assert forall i :: 0 <= i < |front| ==> front[i] == b[i];
      }
      DigitsAppend(a, front);
      assert (a + b)[..|a + b| - 1] == a + front;
      assert (a + b)[|a + b| - 1] == last;
    }
  }

  /** A digit run followed by `n` zeros reads as the run times ten to the `n`. */
  lemma DigitsThenZeros(w: string, n: nat)
    requires AllDigits(w)
    ensures AllDigits(w + Repeat('0', n))
    ensures DigitsValue(w + Repeat('0', n)) == TimesPow10(DigitsValue(w), n)
  {
    assert AllDigits(Repeat('0', n));
    DigitsAppend(w, Repeat('0', n));
  }

  /** Length of the leading run of digits. */
  function DigitRun(s: string): (k: nat)
    ensures k <= |s|
    ensures AllDigits(s[..k])
    ensures k < |s| ==> !IsDigit(s[k])
  {
    if s == [] || !IsDigit(s[0]) then 0
    else
      var k := 1 + DigitRun(s[1..]);
      assert forall i :: 1 <= i < k ==> s[..k][i] == s[1..][..k - 1][i - 1];
      k
  }

  /** `.` in a JavaScript regular expression matches anything but these. */
  predicate IsLineTerminator(c: char)
  {
    c == '\n' || c == '\r' || c == '\U{2028}' || c == '\U{2029}'
  }

  /** The strings the credits group `\d+(.\d+)?` captures: a digit run, optionally followed by one
      non-digit character that is not a line terminator and a second digit run. */
  predicate IsCreditToken(s: string)
  {
    var k := DigitRun(s);
    0 < k && (k == |s| || (k + 1 < |s| && !IsLineTerminator(s[k]) && AllDigits(s[k + 1..])))
  }

  /** The base a prefix letter after a leading `0` selects in a numeric string: hexadecimal,
      octal or binary; 0 for any other character. */
  function RadixOf(c: char): (b: nat)
    ensures b in {0, 2, 8, 16}
    ensures b == 16 <==> c == 'x' || c == 'X'
    ensures b == 8 <==> c == 'o' || c == 'O'
    ensures b == 2 <==> c == 'b' || c == 'B'
  {
    if c == 'x' || c == 'X' then 16
    else if c == 'o' || c == 'O' then 8
    else if c == 'b' || c == 'B' then 2
    else 0
  }

  /** Every character is a decimal digit whose value is a digit of base `b`. */
  predicate DigitsBelow(s: string, b: nat)
  {
    forall i :: 0 <= i < |s| ==> IsDigit(s[i]) && DigitValue(s[i]) < b
  }

  /** A run of decimal digits read positionally in base `b`, most significant digit first. */
  function RadixValue(s: string, b: nat): (v: nat)
    requires AllDigits(s) && b >= 2
    ensures v == 0 <==> forall i :: 0 <= i < |s| ==> s[i] == '0'
  {
    if s == [] then 0
    else
      var front := s[..|s| - 1];
      assert forall i :: 0 <= i < |front| ==> front[i] == s[i];
      b * RadixValue(front, b) + DigitValue(s[|s| - 1])
  }

  /** Base ten positional reading is the decimal reading. */
  lemma {:induction false} RadixTenIsDecimal(s: string)
    requires AllDigits(s)
    ensures RadixValue(s, 10) == DigitsValue(s)
  {
    if s != [] {
      var front := s[..|s| - 1];
      assert AllDigits(front) by {
        assert forall i :: 0 <= i < |front| ==> front[i] == s[i];
      }
      RadixTenIsDecimal(front);
    }
  }

  /** A credits token that `Number` reads as a non-decimal integer literal: `0`, a prefix letter,
      and a second run whose digits all belong to the prefix's base. */
  predicate IsRadixLiteral(s: string)
  {
    |s| >= 3 && s[0] == '0' && RadixOf(s[1]) > 0 && DigitsBelow(s[2..], RadixOf(s[1]))
  }

  /** A radix literal is a credits token whose first digit run is the single `0`. */
  lemma RadixLiteralIsToken(s: string)
    requires IsRadixLiteral(s)
    ensures IsCreditToken(s) && DigitRun(s) == 1
  {
    assert DigitRun(s[1..]) == 0;
    assert AllDigits(s[2..]);
  }

  /** `n` with its decimal point moved `k` places left: `n` divided by ten, `k` times. */
  function PointLeft(n: nat, k: nat): (v: real)
    ensures v >= 0.0
  {
    if k == 0 then n as real else PointLeft(n, k - 1) / 10.0
  }

  /** Moving the point back restores the digits: `PointLeft(n, k)` is `n / 10^k`. */
  lemma {:induction false} PointLeftTimesPow10(n: nat, k: nat)
    ensures PointLeft(n, k) * Pow10(k) as real == n as real
  {
    if k > 0 {
      PointLeftTimesPow10(n, k - 1);
      TenthTimesTen(PointLeft(n, k - 1), Pow10(k - 1) as real);
    }
  }

  lemma TenthTimesTen(u: real, p: real)
    ensures (u / 10.0) * (10.0 * p) == u * p
  {
  }

  /** Fewer digits than `m` followed by `k` zeros leave a value below `m`. */
  lemma {:induction false} PointLeftBelow(n: nat, m: nat, k: nat)
    requires n < TimesPow10(m, k)
    ensures PointLeft(n, k) < m as real
    decreases k
  {
    if k > 0 {
      TimesPow10Shift(m, k);
      PointLeftBelow(n, 10 * m, k - 1);
    }
  }

  /** A whole part plus `k` digits after the point is the digits of both read together, with the
      point moved `k` places left. */
  lemma {:induction false} PointLeftAppend(w: nat, f: nat, k: nat)
    ensures w as real + PointLeft(f, k) == PointLeft(TimesPow10(w, k) + f, k)
    decreases k
  {
    if k > 0 {
      var n := TimesPow10(w, k) + f;
      TimesPow10Shift(w, k);
      PointLeftAppend(10 * w, f, k - 1);
      assert PointLeft(n, k - 1) == (10 * w) as real + PointLeft(f, k - 1);
      assert PointLeft(n, k) == PointLeft(n, k - 1) / 10.0;
    }
  }

  /** `Number` on a two-run token whose separator is not a radix prefix: a decimal fraction after
      `.`, a power of ten after `e` or `E`, NaN after anything else. After `.` the value is the
      two runs read as one with the point moved left by the length of the second; after `e` it
      is the first run followed by as many zeros as the second run says. */
  function SeparatedNumber(whole: string, sep: char, tail: string): (r: Option<real>)
    requires AllDigits(whole) && AllDigits(tail)
    ensures r.Some? <==> sep in {'.', 'e', 'E'}
    ensures r.Some? ==> r.value >= DigitsValue(whole) as real
    ensures sep == '.' ==>
              AllDigits(whole + tail) && r == Some(PointLeft(DigitsValue(whole + tail), |tail|))
    ensures sep == 'e' || sep == 'E' ==>
              var zeros := Repeat('0', DigitsValue(tail));
              AllDigits(whole + zeros) && r == Some(DigitsValue(whole + zeros) as real)
  {
    var w := DigitsValue(whole);
    if sep == '.' then
      DigitsAppend(whole, tail);
      PointLeftAppend(w, DigitsValue(tail), |tail|);
      Some(w as real + PointLeft(DigitsValue(tail), |tail|))
    else if sep == 'e' || sep == 'E' then
      DigitsThenZeros(whole, DigitsValue(tail));
      Some(TimesPow10(w, DigitsValue(tail)) as real)
    else None
  }

  /** The credits tokens `Number` reads as a number rather than NaN: a plain digit run, a run with
      a decimal fraction or an exponent, or a radix literal. */
  predicate IsNumericToken(s: string)
  {
    && IsCreditToken(s)
    && (DigitRun(s) == |s| || s[DigitRun(s)] in {'.', 'e', 'E'} || IsRadixLiteral(s))
  }

  /** `Number(s)` for a credits token; `None` stands for NaN. */
  function CreditNumber(s: string): (r: Option<real>)
    ensures r.Some? <==> IsNumericToken(s)
    ensures r.Some? ==> r.value >= 0.0
    ensures s != [] && AllDigits(s) ==> r == Some(DigitsValue(s) as real)
    ensures IsRadixLiteral(s) ==> r == Some(RadixValue(s[2..], RadixOf(s[1])) as real)
  {
    if IsRadixLiteral(s) then
      RadixLiteralIsToken(s);
      Some(RadixValue(s[2..], RadixOf(s[1])) as real)
    else if !IsCreditToken(s) then None
    else
      var k := DigitRun(s);
      if k == |s| then
        assert s[..k] == s;
        Some(DigitsValue(s) as real)
      else
        SeparatedNumber(s[..k], s[k], s[k + 1..])
  }

  /** A separator that is not a prefix letter leaves a credits token to `SeparatedNumber`. */
  lemma {:induction false} SeparatorNotRadix(s: string)
    requires IsCreditToken(s) && DigitRun(s) < |s| && RadixOf(s[DigitRun(s)]) == 0
    ensures !IsRadixLiteral(s)
    ensures CreditNumber(s) == SeparatedNumber(s[..DigitRun(s)], s[DigitRun(s)], s[DigitRun(s) + 1..])
  {
    var k := DigitRun(s);
    assert k > 1 ==> IsDigit(s[1]) by {
      if k > 1 { assert s[..k][1] == s[1]; }
    }
  }

  /** A decimal credit is its digits read without the point, divided by ten to the number of
      digits after the point. */
  lemma {:induction false} DecimalCreditValue(s: string)
    requires IsCreditToken(s) && DigitRun(s) < |s| && s[DigitRun(s)] == '.'
    ensures var k := DigitRun(s);
            && AllDigits(s[..k] + s[k + 1..])
            && CreditNumber(s) == Some(PointLeft(DigitsValue(s[..k] + s[k + 1..]), |s| - k - 1))
  {
    SeparatorNotRadix(s);
  }

  /** An exponent credit is its first digit run followed by as many zeros as the exponent says. */
  lemma {:induction false} ExponentCreditValue(s: string)
    requires IsCreditToken(s) && DigitRun(s) < |s| && (s[DigitRun(s)] == 'e' || s[DigitRun(s)] == 'E')
    ensures var k := DigitRun(s);
            && AllDigits(s[..k] + Repeat('0', DigitsValue(s[k + 1..])))
            && CreditNumber(s) == Some(DigitsValue(s[..k] + Repeat('0', DigitsValue(s[k + 1..]))) as real)
  {
    var k := DigitRun(s);
    var whole, tail := s[..k], s[k + 1..];
    assert RadixOf(s[k]) == 0;
    SeparatorNotRadix(s);
    var zeros := Repeat('0', DigitsValue(tail));
    assert SeparatedNumber(whole, s[k], tail) == Some(DigitsValue(whole + zeros) as real);
  }

  /** A decimal credit lies between its integer part and the next integer. */
  lemma {:induction false} DecimalCreditBounds(s: string)
    requires IsCreditToken(s) && DigitRun(s) < |s| && s[DigitRun(s)] == '.'
    ensures CreditNumber(s).Some?
    ensures var whole := DigitsValue(s[..DigitRun(s)]) as real;
            whole <= CreditNumber(s).value < whole + 1.0
  {
    var k := DigitRun(s);
    var whole, tail := s[..k], s[k + 1..];
    SeparatorNotRadix(s);
    DigitsAppend(whole, tail);
    PointLeftAppend(DigitsValue(whole), DigitsValue(tail), |tail|);
    Pow10IsTimesPow10(|tail|);
    PointLeftBelow(DigitsValue(tail), 1, |tail|);
  }

  /** The four-digit term year as a number. */
  function TermNumber(s: string): (v: nat)
    requires |s| == 4 && AllDigits(s)
    ensures v < 10000
    ensures v == 0 <==> s == "0000"
  {
    assert (forall i :: 0 <= i < 4 ==> s[i] == '0') <==> s == "0000";
    DigitsValue(s)
  }

  // The credit values the acceptance filter sees for typical tokens.

  /** A plain credit. */
  lemma CreditOfInteger()
    ensures CreditNumber("2") == Some(2.0)
  {
    assert DigitsValue("2") == 2;
  }

  /** The zero credit, which the acceptance filter then rejects as falsy. */
  lemma CreditOfZero()
    ensures CreditNumber("0") == Some(0.0)
  {
    assert DigitsValue("0") == 0;
  }

  /** A decimal credit. */
  lemma CreditOfDecimal()
    ensures CreditNumber("1.5") == Some(1.5)
  {
    assert DigitRun("1.5") == 1 by { assert DigitRun("1.5"[1..]) == 0; }
    assert "1.5"[..1] == "1" && "1.5"[2..] == "5";
    assert DigitsValue("1") == 1 && DigitsValue("5") == 5;
    assert Pow10(1) == 10;
  }

  /** A separator that is neither a decimal point, an exponent nor a radix prefix gives NaN. */
  lemma CreditOfOtherSeparator()
    ensures CreditNumber("2x5") == None
  {
    assert DigitRun("2x5") == 1 by { assert DigitRun("2x5"[1..]) == 0; }
    assert !IsRadixLiteral("2x5");
  }

  /** An `e` separator reads as an exponent. */
  lemma CreditOfExponent()
    ensures CreditNumber("2e3") == Some(2000.0)
  {
    assert DigitRun("2e3") == 1 by { assert DigitRun("2e3"[1..]) == 0; }
    assert "2e3"[..1] == "2" && "2e3"[2..] == "3";
    assert DigitsValue("2") == 2 && DigitsValue("3") == 3;
    assert Pow10(3) == 1000;
  }

  /** `0x` reads the second run in base sixteen. */
  lemma CreditOfHex()
    ensures CreditNumber("0x10") == Some(16.0)
  {
    assert "0x10"[2..] == "10";
    assert "10"[..1] == "1";
    assert RadixValue("1", 16) == 1;
    assert RadixValue("10", 16) == 16;
  }

  /** `0b` reads the second run in base two. */
  lemma CreditOfBinary()
    ensures CreditNumber("0b101") == Some(5.0)
  {
    assert "0b101"[2..] == "101";
    assert "101"[..2] == "10" && "10"[..1] == "1";
    assert RadixValue("1", 2) == 1;
    assert RadixValue("10", 2) == 2;
    assert RadixValue("101", 2) == 5;
  }

  /** `0o` reads the second run in base eight. */
  lemma CreditOfOctal()
    ensures CreditNumber("0o17") == Some(15.0)
  {
    assert "0o17"[2..] == "17";
    assert "17"[..1] == "1";
    assert RadixValue("1", 8) == 1;
    assert RadixValue("17", 8) == 15;
  }

  /** A digit outside the prefix's base gives NaN, and so does a prefix after any first run other
      than the single digit `0`. */
  lemma CreditOfBadRadix()
    ensures CreditNumber("0b2") == None
    ensures CreditNumber("1x5") == None
  {
    assert DigitRun("0b2") == 1 by { assert DigitRun("0b2"[1..]) == 0; }
    assert "0b2"[2..] == "2";
    assert !DigitsBelow("2", 2) by { assert DigitValue("2"[0]) == 2; }
    assert !IsRadixLiteral("0b2");
    assert DigitRun("1x5") == 1 by { assert DigitRun("1x5"[1..]) == 0; }
  }
}
