/** The string conversions the parsers and their messages rely on: `Number.prototype.toString`
    in base 2, 10 and 16, and `String.prototype.padStart`, which the formatting helpers build on. */
module Text {
  import opened Bytes

  /** The character JavaScript writes for digit `d`: '0'..'9', then 'a'..'f'. */
  function DigitChar(d: nat): (c: char)
    requires d < 16
  {
    if d < 10 then (48 + d) as char else (87 + d) as char
  }

  predicate IsDigit(c: char, base: nat)
  {
    ('0' <= c <= '9' && (c as int) - 48 < base) || ('a' <= c <= 'f' && (c as int) - 87 < base)
  }

  /** The value of one digit character: the inverse of `DigitChar`. */
  function DigitValue(c: char): (d: nat)
    requires IsDigit(c, 16)
    ensures d < 16 && DigitChar(d) == c
  {
    if '0' <= c <= '9' then (c as int) - 48 else (c as int) - 87
  }

  /** `n.toString(base)` for a non-negative integer: the shortest digit string, lower-case
      letters above 9, "0" for zero. */
  function Radix(n: nat, base: nat): (s: string)
    requires 2 <= base <= 16
    ensures |s| >= 1 && (|s| > 1 ==> s[0] != '0')
    ensures forall i :: 0 <= i < |s| ==> IsDigit(s[i], base)
  {
    if n < base then [DigitChar(n)]
    else
      DivMod(n, base);
      Radix(n / base, base) + [DigitChar(n % base)]
  }

  lemma DivMod(n: nat, base: nat)
    requires 2 <= base <= n
    ensures 1 <= n / base < n && n % base < base && n == (n / base) * base + n % base
  {
    var q, r := n / base, n % base;
    assert n == q * base + r && 0 <= r < base;
    assert q >= 1;
    assert q * 2 <= q * base by {
      assert q * (base - 2) >= 0;
    }
  }

  /** The value of a digit string read in `base`, most significant digit first. */
  function ValueOf(s: string, base: nat): nat
    requires 2 <= base <= 16
    requires forall i :: 0 <= i < |s| ==> IsDigit(s[i], base)
  {
    if s == [] then 0
    else
      assert IsDigit(s[|s| - 1], base);
      ValueOf(s[..|s| - 1], base) * base + DigitValue(s[|s| - 1])
  }

  lemma {:induction false} ValueOfRadix(n: nat, base: nat)
    requires 2 <= base <= 16
    ensures ValueOf(Radix(n, base), base) == n
  {
    var s := Radix(n, base);
    if n >= base {
      var q, d := n / base, n % base;
      DivMod(n, base);
      ValueOfRadix(q, base);
      assert s[..|s| - 1] == Radix(q, base);
      assert DigitValue(s[|s| - 1]) == d;
      assert ValueOf(s, base) == q * base + d;
    }
  }

  /** `k` copies of the character '0'. */
  function Zeros(k: nat): (z: string)
    ensures |z| == k && forall i :: 0 <= i < k ==> z[i] == '0'
  {
    seq(k, _ => '0')
  }

  /** Leading zeros do not change the value of a digit string. */
  lemma {:induction false} ValueOfLeadingZeros(k: nat, s: string, base: nat)
    requires 2 <= base <= 16
    requires forall i :: 0 <= i < |s| ==> IsDigit(s[i], base)
    ensures forall i :: 0 <= i < |Zeros(k) + s| ==> IsDigit((Zeros(k) + s)[i], base)
    ensures ValueOf(Zeros(k) + s, base) == ValueOf(s, base)
    decreases |s|
  {
    var z := Zeros(k);
    if s == [] {
      assert z + s == z;
      ZerosHaveNoValue(k, base);
    } else {
      ValueOfLeadingZeros(k, s[..|s| - 1], base);
      assert (z + s)[..|z + s| - 1] == z + s[..|s| - 1];
    }
  }

  lemma {:induction false} ZerosHaveNoValue(k: nat, base: nat)
    requires 2 <= base <= 16
    ensures ValueOf(Zeros(k), base) == 0
  {
    if k > 0 {
      ZerosHaveNoValue(k - 1, base);
      assert Zeros(k)[..k - 1] == Zeros(k - 1);
    }
  }

  /** `n.toString(base)` for any integer: a minus sign exactly for negative numbers, then the
      digits of |n| with no leading zero. */
  function IntToString(n: int, base: nat): (s: string)
    requires 2 <= base <= 16
    ensures |s| >= 1 && (s[0] == '-' <==> n < 0)
    ensures var digits := if n < 0 then s[1..] else s;
      && |digits| >= 1 && (|digits| > 1 ==> digits[0] != '0')
      && (forall i :: 0 <= i < |digits| ==> IsDigit(digits[i], base))
      && ValueOf(digits, base) == (if n < 0 then -n else n)
  {
    var magnitude := if n < 0 then -n else n;
    ValueOfRadix(magnitude, base);
    if n < 0 then "-" + Radix(magnitude, base) else Radix(magnitude, base)
  }

  /** The decimal text JavaScript writes for an integer in a template literal. */
  function Decimal(n: int): (s: string)
    ensures n >= 0 ==> s == Radix(n, 10)
  {
    IntToString(n, 10)
  }

  /** `s.padStart(width, c)`: `c` repeated in front of `s` until it is `width` long. */
  function PadStart(s: string, width: nat, c: char): (r: string)
    ensures |r| == if |s| >= width then |s| else width
    ensures r == seq(|r| - |s|, _ => c) + s
  {
    if |s| >= width then s else seq(width - |s|, _ => c) + s
  }
}
