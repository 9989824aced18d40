/**
 * Digit strings in bases 2 to 16: the formatting Python applies to a
 * non-negative int (format code 'x' for base 16, str() for base 10) and
 * the digit reading of int(s, base).
 */
module Numerals {
  import opened Wrappers

  type Base = b: nat | 2 <= b <= 16 witness 10

  /** The lower-case character of digit d. */
  function DigitChar(d: nat): (c: char)
    requires d < 16
  {
    if d < 10 then ('0' as int + d) as char else ('a' as int + d - 10) as char
  }

  /** The value of a digit character; upper- and lower-case letters are both accepted. */
  function DigitValue(c: char): (r: Option<nat>)
    ensures r.Some? ==> r.value < 16
  {
    if '0' <= c <= '9' then Some(c as int - '0' as int)
    else if 'a' <= c <= 'f' then Some(c as int - 'a' as int + 10)
    else if 'A' <= c <= 'F' then Some(c as int - 'A' as int + 10)
    else None
  }

  predicate IsDigit(c: char, base: Base) {
    DigitValue(c).Some? && DigitValue(c).value < base
  }

  predicate IsLowerDigit(c: char, base: Base) {
    IsDigit(c, base) && !('A' <= c <= 'F')
  }

  lemma DigitCharValue(d: nat, base: Base)
    requires d < base
    ensures DigitValue(DigitChar(d)) == Some(d) && IsLowerDigit(DigitChar(d), base)
  {
  }

  /** Euclidean division by the base splits off the last digit and shrinks n. */
  lemma DivModBase(n: nat, base: Base)
    ensures n == (n / base) * base + n % base && n % base < base
    ensures n >= base ==> 0 < n / base < n
  {
  }

  /**
   * The canonical digits of n: lower case, no prefix, no leading zero,
   * and "0" for zero.
   */
  function Format(n: nat, base: Base): (s: string)
    ensures |s| > 0
    ensures forall i :: 0 <= i < |s| ==> IsLowerDigit(s[i], base)
    ensures |s| > 1 ==> s[0] != '0'
    decreases n
  {
    DivModBase(n, base);
    DigitCharValue(n % base, base);
    if n < base then [DigitChar(n)]
    else Format(n / base, base) + [DigitChar(n % base)]
  }

  /** A character that is no digit at all, such as ',' or ':', never occurs in formatted digits. */
  lemma FormatExcludes(n: nat, base: Base, c: char)
    requires DigitValue(c).None?
    ensures c !in Format(n, base)
  {
  }

  /**
   * The number a string of digits denotes; None for the empty string and
   * for any character that is not a digit of the base.
   */
  function Value(s: string, base: Base): (r: Option<nat>)
    ensures r.Some? <==> |s| > 0 && forall i :: 0 <= i < |s| ==> IsDigit(s[i], base)
  {
    if |s| == 0 || !IsDigit(s[|s| - 1], base) then None
    else if |s| == 1 then Some(DigitValue(s[0]).value)
    else
      var front := s[..|s| - 1];
      assert forall i :: 0 <= i < |front| ==> front[i] == s[i];
      match Value(front, base)
      case None => None
      case Some(v) => MulMonotone(v, base); Some(v * base + DigitValue(s[|s| - 1]).value)
  }

  /** Reading back the canonical digits of n gives n. */
  lemma {:induction false} ValueOfFormat(n: nat, base: Base)
    ensures Value(Format(n, base), base) == Some(n)
    decreases n
  {
    DivModBase(n, base);
    DigitCharValue(n % base, base);
    if n >= base {
      var s := Format(n, base);
      assert s[..|s| - 1] == Format(n / base, base);
      ValueOfFormat(n / base, base);
    }
  }

  /** Distinct numbers have distinct canonical digits. */
  lemma FormatInjective(m: nat, n: nat, base: Base)
    requires Format(m, base) == Format(n, base)
    ensures m == n
  {
    ValueOfFormat(m, base);
    ValueOfFormat(n, base);
  }

  /** Python's str() of an int: a minus sign before the canonical digits of a negative value. */
  function Decimal(i: int): (s: string)
    ensures |s| > 0 && (i < 0 <==> s[0] == '-')
    ensures var d := if i < 0 then s[1..] else s;
      && |d| > 0 && (|d| > 1 ==> d[0] != '0')
      && forall k :: 0 <= k < |d| ==> IsLowerDigit(d[k], 10)
    ensures i >= 0 ==> Value(s, 10) == Some(i)
    ensures i < 0 ==> Value(s[1..], 10) == Some(-i)
  {
    ValueOfFormat(if i < 0 then -i else i, 10);
    if i < 0 then
      assert ("-" + Format(-i, 10))[1..] == Format(-i, 10);
      "-" + Format(-i, 10)
    else Format(i, 10)
  }

  /** A character with an upper-case ASCII letter folded to lower case. */
  function LowerChar(c: char): (d: char)
    ensures DigitValue(d) == DigitValue(c)
    ensures !('A' <= d <= 'Z')
  {
    if 'A' <= c <= 'Z' then (c as int - 'A' as int + 'a' as int) as char else c
  }

  /** The string with every upper-case ASCII letter folded to lower case. */
  function Lower(s: string): (r: string)
    ensures |r| == |s| && forall i :: 0 <= i < |s| ==> r[i] == LowerChar(s[i])
  {
    seq(|s|, i requires 0 <= i < |s| => LowerChar(s[i]))
  }

  /** Digits are read alike in either case: int('AB', 16) == int('ab', 16). */
  lemma {:induction false} ValueIgnoresCase(s: string, base: Base)
    ensures Value(Lower(s), base) == Value(s, base)
    decreases |s|
  {
    if |s| > 1 {
      var front := s[..|s| - 1];
      assert Lower(s)[..|s| - 1] == Lower(front);
      ValueIgnoresCase(front, base);
    }
  }

  /** A leading zero does not change the number: int('07') == int('7'). */
  lemma {:induction false} ValueLeadingZero(s: string, base: Base)
    requires |s| > 0
    ensures Value("0" + s, base) == Value(s, base)
    decreases |s|
  {
    var z := "0" + s;
    var last := s[|s| - 1];
    assert z[|z| - 1] == last;
    if |s| == 1 {
      assert z[..1] == "0";
      assert Value("0", base) == Some(0);
    } else {
      var front := s[..|s| - 1];
      assert z[..|z| - 1] == "0" + front;
      ValueLeadingZero(front, base);
    }
  }

  /** The digits without their leading zeros; a lone "0" stays. */
  function StripZeros(s: string): (r: string)
    ensures |r| <= |s| && (|s| > 0 ==> |r| > 0)
    ensures r == s[|s| - |r|..]
    ensures forall i :: 0 <= i < |s| - |r| ==> s[i] == '0'
    ensures |r| > 1 ==> r[0] != '0'
  {
    if |s| > 1 && s[0] == '0' then StripZeros(s[1..]) else s
  }

  lemma {:induction false} ValueStripZeros(s: string, base: Base)
    ensures Value(StripZeros(s), base) == Value(s, base)
    decreases |s|
  {
    if |s| > 1 && s[0] == '0' {
      var rest := s[1..];
      assert s == "0" + rest;
      ValueLeadingZero(rest, base);
      ValueStripZeros(rest, base);
    }
  }

  /** Digits that do not start with '0' denote a positive number. */
  lemma {:induction false} ValuePositive(s: string, base: Base)
    requires Value(s, base).Some? && s[0] != '0'
    ensures Value(s, base).value > 0
    decreases |s|
  {
    if |s| > 1 {
      var front := s[..|s| - 1];
      ValuePositive(front, base);
      var m := Value(front, base).value;
      assert m * base >= m by { MulMonotone(m, base); }
    }
  }

  lemma MulMonotone(m: nat, base: Base)
    ensures m * base >= m && (m > 0 ==> m * base >= base)
  {
  }

  /** Splitting q * base + r by the base gives back q and r. */
  lemma DivModOf(q: nat, r: nat, base: Base)
    requires r < base
    ensures (q * base + r) / base == q && (q * base + r) % base == r
  {
    var n := q * base + r;
    DivModBase(n, base);
    QuotientUnique(q, r, n / base, n % base, base);
  }

  /** The quotient and the remainder below the base are unique. */
  lemma QuotientUnique(q: nat, r: nat, q': nat, r': nat, base: Base)
    requires r < base && r' < base && q * base + r == q' * base + r'
    ensures q == q' && r == r'
  {
    if q < q' {
      ShiftedProduct(q, q' - q, base);
    } else if q' < q {
      ShiftedProduct(q', q - q', base);
    }
  }

  /** (a + k) * base for k > 0 is at least a * base + base. */
  lemma ShiftedProduct(a: nat, k: nat, base: Base)
    requires k > 0
    ensures (a + k) * base >= a * base + base
  {
    calc {
      (a + k) * base;
      a * base + k * base;
    >= { MulMonotone(k, base); }
      a * base + base;
    }
  }

  lemma DigitCharOfValue(c: char, base: Base)
    requires IsLowerDigit(c, base)
    ensures DigitChar(DigitValue(c).value) == c
  {
  }

  /** Lower-case digits with no leading zero are the canonical digits of the number they denote. */
  lemma {:induction false} FormatOfValue(s: string, base: Base)
    requires |s| > 0 && forall i :: 0 <= i < |s| ==> IsLowerDigit(s[i], base)
    requires |s| > 1 ==> s[0] != '0'
    ensures Value(s, base).Some? && Format(Value(s, base).value, base) == s
    decreases |s|
  {
    var n := Value(s, base).value;
    var last := s[|s| - 1];
    DigitCharOfValue(last, base);
    if |s| > 1 {
      var front := s[..|s| - 1];
      FormatOfValue(front, base);
      ValuePositive(front, base);
      var m := Value(front, base).value;
      var d := DigitValue(last).value;
      assert n == m * base + d;
      DivModOf(m, d, base);
      MulMonotone(m, base);
      assert s == front + [last];
    }
  }

  /** The spelling str() or format() would give the digits: lower case, leading zeros dropped. */
  function Canonical(s: string): string
  {
    Lower(StripZeros(s))
  }

  /** Folding the case of digits without a leading zero gives canonical digits. */
  lemma LowerCanonical(t: string, base: Base)
    requires Value(t, base).Some? && (|t| > 1 ==> t[0] != '0')
    ensures var l := Lower(t);
      && |l| > 0 && (forall i :: 0 <= i < |l| ==> IsLowerDigit(l[i], base))
      && (|l| > 1 ==> l[0] != '0')
  {
    var l := Lower(t);
    forall i | 0 <= i < |l| ensures IsLowerDigit(l[i], base) {
      assert IsDigit(t[i], base);
      assert l[i] == LowerChar(t[i]);
    }
    if |l| > 1 {
      assert DigitValue(t[0]) != Some(0);
      assert l[0] == LowerChar(t[0]);
    }
  }

  /**
   * What int(s, base) returns: the number whose canonical digits are s in
   * lower case without its leading zeros.
   */
  lemma ValueCanonical(s: string, base: Base)
    ensures Value(s, base).Some? ==> Format(Value(s, base).value, base) == Canonical(s)
  {
    if Value(s, base).Some? {
      var t := StripZeros(s);
      ValueStripZeros(s, base);
      ValueIgnoresCase(t, base);
      LowerCanonical(t, base);
      FormatOfValue(Lower(t), base);
    }
  }
}
