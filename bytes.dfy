/** Shared vocabulary of the parsers: bytes, the failures a parse can end with, and the
    little-endian integer decoding that every container format of the repository uses. */
module Bytes {

  /** An element of a `Uint8Array`. */
  type byte = x: int | 0 <= x < 256

  /** Why a parse stopped. The first three are raised by the JavaScript runtime, the others are
      the `Error`s the parsers throw themselves. */
  datatype Error =
    | EndOfBuffer               // the single-byte generator of the cursor is exhausted
    | RangeError                // a typed-array view or a DataView read outside the buffer
    | TypeError                 // an array method applied to the bare number `read(1)` returns
    | BadSignature              // a magic number or signature is not the expected one
    | BadVersion                // the GIF version is not two digits and a lower-case letter
    | ExpectedIntroducer        // a GIF extension does not start with 0x21
    | ExpectedLabel             // a GIF extension does not carry the expected label
    | BadBlockSize              // a fixed-size GIF block declares another size
    | MissingTerminator         // a GIF graphic control extension does not end with 0
    | UnknownLabel              // the top-level GIF dispatch meets an unknown label
    | ExpectedImageOrExtension  // a GIF graphic rendering block starts with another byte
    | ExpectedImageSeparator    // a GIF image descriptor does not start with 0x2C
    | BadTrailer                // the GIF data stream does not end with 0x3B
    | BadChunkId                // a RIFF chunk does not carry the expected identifier
    | UnknownInfoChunk          // a LIST/INFO sub-chunk identifier is not in the dictionary
    | UnknownListType           // a LIST chunk whose list type is not INFO
    | UnsupportedFormat         // a RIFF form type other than WAVE
    | UndefinedCode             // an LZW code past the table with no previous string to extend

  /** The outcome of an operation that may throw. */
  datatype Result<T> = Ok(value: T) | Err(error: Error) {
    predicate IsFailure() { Err? }
    function PropagateFailure<U>(): Result<U> requires Err? { Err(error) }
    function Extract(): T requires Ok? { value }
  }

  datatype Option<T> = None | Some(value: T)

  function Pow2(n: nat): (r: nat)
    ensures r >= 1
  {
    if n == 0 then 1 else 2 * Pow2(n - 1)
  }

  lemma Pow2Add(a: nat, c: nat)
    ensures Pow2(a + c) == Pow2(a) * Pow2(c)
    decreases a
  {
    if a > 0 {
      Pow2Add(a - 1, c);
    }
  }

  lemma Pow2Monotone(a: nat, c: nat)
    requires a <= c
    ensures Pow2(a) <= Pow2(c)
  {
    Pow2Add(a, c - a);
  }

  /** Quotient and remainder are the only ones: what `x = q * d + r` with `0 <= r < d` says. */
  lemma DivModUnique(x: int, d: int, q: int, r: int)
    requires d > 0 && 0 <= r < d && x == q * d + r
    ensures x / d == q && x % d == r
  {
    var q' := x / d;
    if q > q' {
      Gap(q, q', d);
    } else if q < q' {
      Gap(q', q, d);
    }
  }

  /** A larger multiple of `d` is at least `d` larger. */
  lemma Gap(q: int, q': int, d: int)
    requires q > q' && d > 0
    ensures q * d >= q' * d + d
  {
    assert q * d == q' * d + (q - q') * d;
    assert (q - q') * d == d + (q - q' - 1) * d;
  }

  /** Dividing by `a` and then by `b` is dividing by `a * b`. */
  lemma DivDiv(x: nat, a: nat, b: nat)
    requires a > 0 && b > 0
    ensures x / a / b == x / (a * b)
    ensures x % (a * b) == x % a + a * (x / a % b)
  {
    var q1, r1 := x / a, x % a;
    var q2, r2 := q1 / b, q1 % b;
    Regroup(a, b, q2, r2, r1);
    DivModUnique(x, a * b, q2, a * r2 + r1);
  }

  lemma Regroup(a: nat, b: nat, q2: nat, r2: nat, r1: nat)
    requires a > 0 && r2 < b && r1 < a
    ensures a * (b * q2 + r2) + r1 == q2 * (a * b) + (a * r2 + r1)
    ensures a * r2 + r1 < a * b
  {
    assert a * (b * q2 + r2) == a * (b * q2) + a * r2;
    assert a * (b * q2) == q2 * (a * b);
    var slack := b - 1 - r2;
    assert a * b == a * r2 + a * slack + a;
    assert a * slack >= 0;
  }

  /** The same, seen from a number shifted right by `p`. */
  lemma ShiftedDivDiv(x: nat, p: nat, a: nat, b: nat)
    requires p > 0 && a > 0 && b > 0
    ensures x / p % (a * b) == x / p % a + a * (x / (p * a) % b)
  {
    DivDiv(x / p, a, b);
    DivDiv(x, p, a);
  }

  function Pow256(n: nat): (r: nat)
    ensures r >= 1
  {
    if n == 0 then 1 else 256 * Pow256(n - 1)
  }

  /** The unsigned little-endian value of a byte string, as `DataView.getUint{8,16,32}(0, true)`
      computes it from the first 1, 2 or 4 bytes. */
  function LeUint(s: seq<byte>): (v: nat)
    ensures v < Pow256(|s|)
  {
    if s == [] then 0 else s[0] + 256 * LeUint(s[1..])
  }

  /** The little-endian encoding of `v` on `n` bytes: the partner of `LeUint`. */
  function LeBytes(v: nat, n: nat): (s: seq<byte>)
    ensures |s| == n
  {
    if n == 0 then [] else [v % 256] + LeBytes(v / 256, n - 1)
  }

  lemma {:induction false} LeUintOfLeBytes(v: nat, n: nat)
    requires v < Pow256(n)
    ensures LeUint(LeBytes(v, n)) == v
  {
    if n > 0 {
      LeUintOfLeBytes(v / 256, n - 1);
      assert LeBytes(v, n)[1..] == LeBytes(v / 256, n - 1);
    }
  }

  lemma {:induction false} LeBytesOfLeUint(s: seq<byte>)
    ensures LeBytes(LeUint(s), |s|) == s
  {
    if s != [] {
      LeBytesOfLeUint(s[1..]);
      assert LeUint(s) % 256 == s[0] && LeUint(s) / 256 == LeUint(s[1..]);
    }
  }

  lemma LeUint1(s: seq<byte>)
    requires |s| == 1
    ensures LeUint(s) == s[0]
  {
    assert s[1..] == [];
  }

  lemma LeUint2(s: seq<byte>)
    requires |s| == 2
    ensures LeUint(s) == s[0] as int + 256 * s[1] as int
  {
    LeUint1(s[1..]);
  }

  lemma LeUint4(s: seq<byte>)
    requires |s| == 4
    ensures LeUint(s) == s[0] as int + 256 * s[1] as int + 65536 * s[2] as int + 16777216 * s[3] as int
  {
    assert s[1..][1..] == s[2..];
    assert s[2..][1..] == s[3..];
    LeUint1(s[3..]);
    LeUint2(s[2..]);
  }

  /** Two's complement reading of an unsigned 8-bit value, as `getInt8` does. */
  function Int8(u: nat): (i: int)
    requires u < 256
    ensures -128 <= i < 128
    ensures i < 0 <==> u >= 128
  {
    if u >= 128 then u - 256 else u
  }

  /** Reading a byte in two's complement keeps its value modulo 256. */
  lemma Int8Wraps(u: nat)
    requires u < 256
    ensures Int8(u) % 256 == u
  {
  }

  /** Two's complement reading of an unsigned 16-bit value, as `getInt16` does. */
  function Int16(u: nat): (i: int)
    requires u < 65536
    ensures -32768 <= i < 32768
    ensures i < 0 <==> u >= 32768
  {
    if u >= 32768 then u - 65536 else u
  }

  /** Reading two bytes in two's complement keeps their value modulo 65536. */
  lemma Int16Wraps(u: nat)
    requires u < 65536
    ensures Int16(u) % 65536 == u
  {
  }

  /** The `n`-th bit (0 = least significant) of a natural number: `(x >> n) & 1`. */
  function Bit(x: nat, n: nat): (b: nat)
    ensures b < 2
  {
    (x / Pow2(n)) % 2
  }

  /** `xs` in front of the items a later walk yields, or that walk's error. */
  function Prefixed<T>(xs: seq<T>, r: Result<seq<T>>): Result<seq<T>>
  {
    match r
    case Ok(ys) => Ok(xs + ys)
    case Err(e) => Err(e)
  }

  lemma PrefixedNothing<T>(r: Result<seq<T>>)
    ensures Prefixed([], r) == r
  {
    if r.Ok? {
      assert [] + r.value == r.value;
    }
  }

  lemma PrefixedTwice<T>(xs: seq<T>, ys: seq<T>, r: Result<seq<T>>)
    ensures Prefixed(xs, Prefixed(ys, r)) == Prefixed(xs + ys, r)
  {
    if r.Ok? {
      assert xs + (ys + r.value) == (xs + ys) + r.value;
    }
  }
}
