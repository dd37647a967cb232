/** C strings by content, comparison up to a length, and number printing. */
module CString {
  import opened Prelude

  /** The contents of a C string: what precedes the terminating zero. */
  type CString = s: string | '\0' !in s

  /** The character at i, where the terminating zero stands at the end. */
  function At(s: CString, i: nat): char
    requires i <= |s|
  {
    if i < |s| then s[i] else '\0'
  }

  function Clip(s: string, n: nat): string {
    if |s| <= n then s else s[..n]
  }

  /** strncmp: zero exactly when the first n characters, up to the terminating zeros, agree. */
  method Strncmp(src: CString, dst: CString, n: nat) returns (r: int)
    ensures r == 0 <==> Clip(src, n) == Clip(dst, n)
  {
    if n == 0 {
      return 0;
    }
    var left, i := n, 0;
    while left != 0 && At(dst, i) == At(src, i)
      invariant 0 < left <= n && i + left == n && i <= |src| && i <= |dst| && src[..i] == dst[..i]
      decreases left
    {
      left := left - 1;
      if left == 0 || At(src, i) == '\0' {
        return At(src, i) as int - At(dst, i) as int;
      }
      i := i + 1;
    }
    left := left - 1;
    return At(src, i) as int - At(dst, i) as int;
  }

  // ----- Numbers -----

  type Base = b: int | 2 <= b <= 16 witness 2

  function Digit(d: nat): char
    requires d < 16
  {
    "0123456789ABCDEF"[d]
  }

  function DigitValue(c: char): nat {
    if '0' <= c <= '9' then c as int - '0' as int else if 'A' <= c <= 'F' then c as int - 'A' as int + 10 else 0
  }

  function Quotient(n: nat, b: Base): (q: nat)
    ensures if n < b then q == 0 else 0 < q < n
  {
    QuotientShrinks(n, b);
    n / b
  }

  lemma QuotientShrinks(n: nat, b: Base)
    ensures if n < b then n / b == 0 else 0 < n / b < n
  {
    var q := n / b;
    assert n == b * q + n % b;
    assert q >= 0 ==> b * q >= 2 * q;
  }

  function Remainder(n: nat, b: Base): (r: nat)
    ensures r < b && (n < b ==> r == n)
  {
    n % b
  }

  lemma Division(n: nat, b: Base)
    ensures n == b * Quotient(n, b) + Remainder(n, b)
  {
  }

  /** The digits of a number, most significant first. */
  function Digits(n: nat, b: Base): (s: string)
    ensures |s| >= 1
  {
    (if n < b then "" else Digits(Quotient(n, b), b)) + [Digit(Remainder(n, b))]
  }

  function Value(s: string, b: Base): nat {
    if s == "" then 0 else b * Value(s[..|s| - 1], b) + DigitValue(s[|s| - 1])
  }

  lemma DigitRoundTrip(d: nat)
    requires d < 16
    ensures DigitValue(Digit(d)) == d && Digit(d) !in {'\0', '/', '.'}
    ensures Digit(d) == '0' <==> d == 0
  {
  }

  /** The printed digits have the number as their value. */
  lemma {:induction false} DigitsValue(n: nat, b: Base)
    ensures Value(Digits(n, b), b) == n
  {
    hide Quotient, Remainder, Digit, DigitValue;
    DigitRoundTrip(Remainder(n, b));
    Division(n, b);
    var front := if n < b then "" else Digits(Quotient(n, b), b);
    assert Digits(n, b)[..|front|] == front;
    if n >= b {
      DigitsValue(Quotient(n, b), b);
    }
  }

  /** Hence two numbers never print alike. */
  lemma DigitsInjective(n: nat, m: nat, b: Base)
    requires Digits(n, b) == Digits(m, b)
    ensures n == m
  {
    DigitsValue(n, b);
    DigitsValue(m, b);
  }

  /** No digit is wasted: there is no leading zero. */
  lemma {:induction false} NoLeadingZero(n: nat, b: Base)
    ensures Digits(n, b)[0] == '0' <==> n == 0
    ensures n < b ==> |Digits(n, b)| == 1
  {
    hide Quotient, Remainder, Digit;
    if n >= b {
      NoLeadingZero(Quotient(n, b), b);
      assert Digits(n, b)[0] == Digits(Quotient(n, b), b)[0];
    } else {
      DigitRoundTrip(n);
      assert Digits(n, b) == [Digit(n)];
    }
  }

  lemma {:induction false} DigitsAreClean(n: nat, b: Base)
    ensures '\0' !in Digits(n, b) && '/' !in Digits(n, b) && '.' !in Digits(n, b)
  {
    hide Quotient, Remainder, Digit;
    DigitRoundTrip(Remainder(n, b));
    if n >= b {
      DigitsAreClean(Quotient(n, b), b);
    }
  }

  /** Below 1000 three digits suffice, which is what the callers' buffers hold. */
  lemma DecimalLength(n: nat)
    ensures n < 1000 ==> |Digits(n, 10)| <= 3
  {
    var q := Quotient(n, 10);
    if n >= 10 {
      assert |Digits(n, 10)| == |Digits(q, 10)| + 1;
      if q >= 10 {
        assert |Digits(q, 10)| == |Digits(Quotient(q, 10), 10)| + 1;
      }
    }
  }

  lemma AtMostHalf(n: nat, b: Base)
    ensures 2 * Quotient(n, b) <= n
  {
    hide Remainder;
    var q := Quotient(n, b);
    Division(n, b);
    assert b * q == 2 * q + (b - 2) * q && (b - 2) * q >= 0;
  }

  /** A number of k bits has at most k digits in any base. */
  lemma {:induction false} DigitsFit(n: nat, b: Base, k: nat)
    requires n < Pow2(k) && k > 0
    ensures |Digits(n, b)| <= k
    decreases k
  {
    hide Quotient, Remainder, Digit;
    if n >= b {
      AtMostHalf(n, b);
      DigitsFit(Quotient(n, b), b, k - 1);
    }
  }

  lemma {:induction false} Pow2Doubles(k: nat)
    ensures Pow2(2 * k) == Pow2(k) * Pow2(k)
  {
    if k > 0 {
      Pow2Doubles(k - 1);
      assert Pow2(2 * k) == 2 * (2 * Pow2(2 * k - 2));
    }
  }

  lemma WordBits()
    ensures Pow2(64) == 0x1_0000_0000_0000_0000
  {
    assert Pow2(8) == 256;
    Pow2Doubles(8);
    Pow2Doubles(16);
    Pow2Doubles(32);
  }

  /** The first loop of itoa. */
  method DigitCount(num: nat, b: Base) returns (len: nat)
    ensures len == |Digits(num, b)|
  {
    hide Quotient, Remainder, Digit;
    var count := num;
    len := 1;
    while Quotient(count, b) != 0
      invariant len + |Digits(count, b)| == |Digits(num, b)| + 1
      decreases count
    {
      count := Quotient(count, b);
      len := len + 1;
    }
  }

  /** itoa: the digits of the number at the start of the buffer, the rest of it untouched. */
  method Itoa(num: nat, b: Base, str: array<char>)
    requires |Digits(num, b)| <= str.Length
    modifies str
    ensures str[..|Digits(num, b)|] == Digits(num, b)
    ensures str[|Digits(num, b)|..] == old(str[|Digits(num, b)|..])
  {
    hide Quotient, Remainder, Digit;
    var len := DigitCount(num, b);
    var n, k := num, len - 1;
    str[k] := Digit(Remainder(n, b));
    while Quotient(n, b) != 0
      invariant 0 <= k < len && k + 1 == |Digits(n, b)|
      invariant Digits(n, b) + str[k + 1..len] == Digits(num, b) && str[k] == Digit(Remainder(n, b))
      invariant str[len..] == old(str[len..])
      decreases n
    {
      n := Quotient(n, b);
      k := k - 1;
      str[k] := Digit(Remainder(n, b));
      assert str[k + 1..len] == [str[k + 1]] + str[k + 2..len];
    }
    assert Digits(n, b) == [str[0]];
    assert str[..len] == [str[0]] + str[1..len];
  }
}
