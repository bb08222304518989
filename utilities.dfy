/** The integer-to-string helpers of `utilities.js`. */
module Utilities {
  import opened Bytes
  import opened Text

  const KB: nat := 1024
  const MB: nat := KB * 1024
  const GB: nat := MB * 1024

  /** What `formatBytesToHumanReadable` returns: a string made of a whole amount and a unit
      suffix, or, from a gigabyte on, the number itself. */
  datatype Formatted = Text(amount: int, suffix: string) | Raw(n: int)
  {
    /** The value as JavaScript would show it in a template literal. */
    function Render(): string
    {
      match this
      case Text(amount, suffix) => Decimal(amount) + suffix
      case Raw(n) => Decimal(n)
    }
  }

  /** How many bytes one unit of each suffix stands for. */
  function UnitSize(suffix: string): (size: nat)
    ensures size >= 1
  {
    if suffix == " kB" then KB else if suffix == " MB" then MB else 1
  }

  function FormatBytesToHumanReadable(bytes: int): (r: Formatted)
    ensures r.Raw? <==> bytes >= GB
    ensures r.Raw? ==> r.n == bytes
    ensures r.Text? ==> r.suffix == (if bytes < KB then " bytes" else if bytes < MB then " kB" else " MB")
    // the amount shown is the size rounded down to whole units
    ensures r.Text? ==> r.amount * UnitSize(r.suffix) <= bytes < (r.amount + 1) * UnitSize(r.suffix)
    // past the first unit, the amount is between 1 and 1023
    ensures r.Text? && bytes >= KB ==> 1 <= r.amount < 1024
  {
    if bytes < KB then Text(bytes, " bytes")
    else if bytes < MB then Text(bytes / KB, " kB")
    else if bytes < GB then Text(bytes / MB, " MB")
    else Raw(bytes)
  }

  /** `"prefix" + n.toString(base).padStart(width, '0')`, the shared shape of `toHex` and
      `toBin`. For a non-negative `n` the digits read back as `n`, are at least `width` long,
      and carry a leading zero only where padding put it. */
  function PrefixedDigits(prefix: string, n: int, base: nat, width: nat): (s: string)
    requires 2 <= base <= 16
    ensures |s| >= |prefix| && s[..|prefix|] == prefix
    ensures n >= 0 ==> forall i :: |prefix| <= i < |s| ==> IsDigit(s[i], base)
    ensures n >= 0 ==> |s| >= |prefix| + width && |s| >= |prefix| + 1
    ensures n >= 0 && |s| > |prefix| + width && |s| > |prefix| + 1 ==> s[|prefix|] != '0'
    ensures n >= 0 ==> ValueOf(s[|prefix|..], base) == n
    ensures n < 0 ==> |s| >= |prefix| + 2 && '-' in s[|prefix|..]
  {
    var digits := IntToString(n, base);
    var padded := PadStart(digits, width, '0');
    if n >= 0 then
      assert padded == Zeros(|padded| - |digits|) + digits;
      ValueOfLeadingZeros(|padded| - |digits|, digits, base);
      ValueOfRadix(n, base);
      assert (prefix + padded)[|prefix|..] == padded;
      prefix + padded
    else
      assert padded[|padded| - |digits|] == '-';
      assert (prefix + padded)[|prefix|..] == padded;
      prefix + padded
  }

  /** `toHex(n, padded)`: "0x" and lower-case hexadecimal digits, at least two when padded. */
  function ToHex(n: int, padded: bool): (s: string)
    ensures |s| >= 2 && s[..2] == "0x"
    ensures n >= 0 ==> forall i :: 2 <= i < |s| ==> IsDigit(s[i], 16)
    ensures n >= 0 ==> ValueOf(s[2..], 16) == n
    ensures n >= 0 && padded ==> |s| >= 4
    ensures n >= 0 && (!padded || n >= 16) && |s| > 3 ==> s[2] != '0'
  {
    PrefixedDigits("0x", n, 16, if padded then 2 else 0)
  }

  /** `toBin(n, padded)`: "0b" and binary digits, at least eight when padded. */
  function ToBin(n: int, padded: bool): (s: string)
    ensures |s| >= 2 && s[..2] == "0b"
    ensures n >= 0 ==> forall i :: 2 <= i < |s| ==> IsDigit(s[i], 2)
    ensures n >= 0 ==> ValueOf(s[2..], 2) == n
    ensures n >= 0 && padded ==> |s| >= 10
    ensures n >= 0 && !padded && |s| > 3 ==> s[2] != '0'
  {
    PrefixedDigits("0b", n, 2, if padded then 8 else 0)
  }

  /** `toASCII(b)` for a byte: the one-character string whose code is `b`. */
  function ToAscii(b: byte): (s: string)
    ensures |s| == 1 && s[0] as int == b
  {
    [b as char]
  }

  /** `bytes.map(toASCII).join('')`: one character per byte, code for code. */
  function Ascii(bytes: seq<byte>): (s: string)
    ensures |s| == |bytes|
    ensures forall i :: 0 <= i < |bytes| ==> s[i] as int == bytes[i] && [s[i]] == ToAscii(bytes[i])
  {
    seq(|bytes|, i requires 0 <= i < |bytes| => ToAscii(bytes[i])[0])
  }
}
