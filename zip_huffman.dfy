/** The DEFLATE pieces of `zip/zip.js`: the bit trie that `generateNodes` builds and
    `getValueFromHuffmanTree` walks, the fixed literal/length code of section 3.2.6 of RFC 1951
    inserted into it, the fields of a dynamic block header with its code length code lengths
    (section 3.2.7), and `generateTheCodes` as written. */
module ZipHuffman {
  import opened Bytes
  import opened Text

  // ---------------------------------------------------------------- the trie

  /** What a leaf holds: a literal byte, the end-of-block marker (`null` in the source), or a
      length code's `{length, extraBits}`, whose fields are `undefined` past the tables. */
  datatype Value = Literal(n: nat) | EndOfBlock | Length(length: Option<nat>, extraBits: Option<nat>)

  /** A position of the trie: `undefined`, a stored value, or an array whose elements '0' and
      '1' are the two subtrees. */
  datatype Trie = Absent | Leaf(value: Value) | Node(zero: Trie, one: Trie)

  predicate IsBitString(code: string)
  {
    forall i :: 0 <= i < |code| ==> code[i] == '0' || code[i] == '1'
  }

  predicate IsPrefix(p: string, s: string)
  {
    |p| <= |s| && s[..|p|] == p
  }

  /** `node[side]`: any other property of an array, a number or an object is `undefined`. */
  function Child(t: Trie, side: char): Trie
  {
    match t
    case Node(zero, one) => if side == '0' then zero else if side == '1' then one else Absent
    case _ => Absent
  }

  /** `node[side] ||= []` on the way down. */
  function Grown(t: Trie): (r: Trie)
    ensures r.Node?
  {
    if t.Node? then t else Node(Absent, Absent)
  }

  /** `generateNodes(node, code, value)`: the first character picks the side, a missing subtree
      is created, and the value is stored where the code ends. */
  function Insert(t: Trie, code: string, v: Value): (r: Trie)
    requires t.Node? && |code| >= 1 && IsBitString(code)
    ensures r.Node?
    decreases |code|
  {
    var child := if |code| == 1 then Leaf(v) else Insert(Grown(Child(t, code[0])), code[1..], v);
    if code[0] == '0' then Node(child, t.one) else Node(t.zero, child)
  }

  /** `getValueFromHuffmanTree(tree, code)`: one character per level; the position where the
      code ends is returned, whatever it holds. Reading a property of `undefined` or of the
      `null` end-of-block marker throws a TypeError. */
  function Lookup(t: Trie, code: string): (r: Result<Trie>)
    ensures r.Err? ==> r.error == TypeError
    ensures t.Absent? || t == Leaf(EndOfBlock) ==> r.Err?
    decreases |code|
  {
    if t.Absent? || t == Leaf(EndOfBlock) then Err(TypeError)
    else
      var child := if code == [] then Absent else Child(t, code[0]);
      if |code| <= 1 then Ok(child) else Lookup(child, code[1..])
  }

  /** An internal node sits at `code`: what the decoder extends by one more bit. */
  predicate NodeAt(t: Trie, code: string)
  {
    Lookup(t, code).Ok? && Lookup(t, code).value.Node?
  }

  /** After an insertion the code leads to its value, through internal nodes only. */
  lemma {:induction false} InsertFinds(t: Trie, code: string, v: Value)
    requires t.Node? && |code| >= 1 && IsBitString(code)
    ensures Lookup(Insert(t, code, v), code) == Ok(Leaf(v))
    ensures forall k :: 1 <= k < |code| ==> NodeAt(Insert(t, code, v), code[..k])
    decreases |code|
  {
    var r := Insert(t, code, v);
    if |code| > 1 {
      var child := Grown(Child(t, code[0]));
      InsertFinds(child, code[1..], v);
      var inner := Insert(child, code[1..], v);
      assert Child(r, code[0]) == inner;
      forall k | 1 <= k < |code|
        ensures NodeAt(r, code[..k])
      {
        if k > 1 {
          assert code[..k][1..] == code[1..][..k - 1];
        }
      }
    }
  }

  /** An insertion leaves alone every code it is not a prefix of and that is not a prefix of
      it, as long as that code could be looked up before. */
  lemma {:induction false} InsertKeeps(t: Trie, code: string, v: Value, other: string)
    requires t.Node? && |code| >= 1 && IsBitString(code)
    requires !IsPrefix(code, other) && !IsPrefix(other, code)
    requires Lookup(t, other).Ok?
    ensures Lookup(Insert(t, code, v), other) == Lookup(t, other)
    decreases |code|
  {
    var r := Insert(t, code, v);
    if code[0] == other[0] {
      var child := Child(t, code[0]);
      assert Lookup(Grown(child), other[1..]) == Lookup(child, other[1..]);
      InsertKeeps(Grown(child), code[1..], v, other[1..]);
      assert Child(r, other[0]) == Insert(Grown(child), code[1..], v);
    } else {
      assert Child(r, other[0]) == Child(t, other[0]);
    }
  }

  // ---------------------------------------------------------------- bit strings

  /** The `w` binary digits of `v`, most significant first: `v.toString(2).padStart(w, '0')`
      when `v` has at most `w` digits. */
  function Bits(v: nat, w: nat): (s: string)
    ensures |s| == w
  {
    if w == 0 then [] else Bits(v / 2, w - 1) + [DigitChar(v % 2)]
  }

  lemma {:induction false} BitsAreBits(v: nat, w: nat)
    ensures IsBitString(Bits(v, w))
  {
    if w > 0 {
      BitsAreBits(v / 2, w - 1);
    }
  }

  /** The first `k` digits of `v` on `w` digits are the digits of `v >> (w - k)`. */
  lemma {:induction false} BitsPrefix(v: nat, w: nat, k: nat)
    requires k <= w
    ensures Bits(v, w)[..k] == Bits(v / Pow2(w - k), k)
    decreases w - k
  {
    if k < w {
      BitsPrefix(v / 2, w - 1, k);
      assert Bits(v, w)[..k] == Bits(v / 2, w - 1)[..k];
      DivDiv(v, 2, Pow2(w - 1 - k));
    }
  }

  /** Different numbers below `2^w` have different digits. */
  lemma {:induction false} BitsInjective(a: nat, b: nat, w: nat)
    requires a < Pow2(w) && b < Pow2(w) && Bits(a, w) == Bits(b, w)
    ensures a == b
  {
    if w > 0 {
      assert Bits(a / 2, w - 1) == Bits(a, w)[..w - 1];
      assert Bits(b / 2, w - 1) == Bits(b, w)[..w - 1];
      BitsInjective(a / 2, b / 2, w - 1);
    }
  }

  lemma {:induction false} BitsOfZero(w: nat)
    ensures Bits(0, w) == seq(w, _ => '0')
  {
    if w > 0 {
      BitsOfZero(w - 1);
    }
  }

  /** `v.toString(2).padStart(w, '0')` is `Bits(v, w)` for every `v` below `2^w`. */
  lemma {:induction false} PaddedRadixIsBits(v: nat, w: nat)
    requires 1 <= w && v < Pow2(w)
    ensures PadStart(Radix(v, 2), w, '0') == Bits(v, w)
  {
    if v < 2 {
      BitsOfZero(w - 1);
      assert Bits(v, w) == Bits(0, w - 1) + [DigitChar(v)];
    } else {
      PaddedRadixIsBits(v / 2, w - 1);
      var digits := Radix(v / 2, 2);
      assert Radix(v, 2) == digits + [DigitChar(v % 2)];
      assert PadStart(digits, w - 1, '0') + [DigitChar(v % 2)] == PadStart(Radix(v, 2), w, '0');
    }
  }

  /** Without padding: `v.toString(2)` for a `v` of exactly `w` digits. */
  lemma RadixIsBits(v: nat, w: nat)
    requires 1 <= w && Pow2(w - 1) <= v < Pow2(w)
    ensures Radix(v, 2) == Bits(v, w)
  {
    PaddedRadixIsBits(v, w);
    BitsPrefix(v, w, 1);
    DivModUnique(v, Pow2(w - 1), 1, v - Pow2(w - 1));
    assert Bits(v, w)[0] == '1';
  }

  // ---------------------------------------------------------------- the fixed code

  /** Base lengths of the length codes 257..285, indexed by code - 256 (section 3.2.5 of
      RFC 1951); index 0 is the end-of-block code. */
  const LENGTHS: seq<nat> := [
    0, 3, 4, 5, 6, 7, 8, 9, 10, 11, 13, 15, 17, 19, 23, 27, 31, 35, 43, 51, 59,
    67, 83, 99, 115, 131, 163, 195, 227, 258]

  const EXTRA_BITS_FOR_LENGTH: seq<nat> := [
    0, 0, 0, 0, 0, 0, 0, 0, 0, 1, 1, 1, 1, 2, 2, 2, 2, 3, 3, 3, 3, 4, 4, 4, 4,
    5, 5, 5, 5, 0]

  /** `{length: lengths[i], extraBits: extraBitsForLength[i]}`: past the tables (codes 286 and
      287) both fields are `undefined`. */
  function LengthValue(i: nat): Value
  {
    Length(if i < |LENGTHS| then Some(LENGTHS[i]) else None,
           if i < |EXTRA_BITS_FOR_LENGTH| then Some(EXTRA_BITS_FOR_LENGTH[i]) else None)
  }

  /** The code length of each literal/length symbol in the fixed code (section 3.2.6). */
  function StaticWidth(s: int): nat
  {
    if s < 144 then 8 else if s < 256 then 9 else if s < 280 then 7 else 8
  }

  /** The number the source writes in binary for symbol `s`. */
  function StaticCodeValue(s: nat): (v: nat)
    requires s < 288
    ensures v < Pow2(StaticWidth(s))
  {
    assert Pow2(7) == 128;
    if s < 144 then 0x30 + s
    else if s < 256 then 0x190 + (s - 144)
    else if s < 280 then s - 256
    else 0xC0 + (s - 280)
  }

  function StaticCode(s: nat): (code: string)
    requires s < 288
    ensures |code| == StaticWidth(s) && IsBitString(code)
  {
    BitsAreBits(StaticCodeValue(s), StaticWidth(s));
    Bits(StaticCodeValue(s), StaticWidth(s))
  }

  /** What the source stores for symbol `s`. */
  function StaticValue(s: nat): Value
  {
    if s < 256 then Literal(s) else if s == 256 then EndOfBlock else LengthValue(s - 256)
  }

  /** A code on `wa` digits is a prefix of one on `wb` digits when it is the longer one's
      leading `wa` bits. */
  lemma PrefixIsShift(a: nat, wa: nat, b: nat, wb: nat)
    requires a < Pow2(wa) && b < Pow2(wb) && IsPrefix(Bits(a, wa), Bits(b, wb))
    ensures a == b / Pow2(wb - wa)
  {
    ShiftFits(b, wa, wb);
    BitsPrefix(b, wb, wa);
    BitsInjective(a, b / Pow2(wb - wa), wa);
  }

  /** `b >> (wb - wa)` has at most `wa` bits. */
  lemma ShiftFits(b: nat, wa: nat, wb: nat)
    requires wa <= wb && b < Pow2(wb)
    ensures 0 <= b / Pow2(wb - wa) < Pow2(wa)
  {
    Pow2Add(wb - wa, wa);
    DivShrinksTo(b, Pow2(wb - wa), Pow2(wa));
  }

  /** No fixed code is a prefix of another one. */
  lemma StaticCodesApart(s: nat, t: nat)
    requires s < 288 && t < 288 && s != t
    ensures !IsPrefix(StaticCode(s), StaticCode(t))
  {
    var a, wa := StaticCodeValue(s), StaticWidth(s);
    var b, wb := StaticCodeValue(t), StaticWidth(t);
    if IsPrefix(Bits(a, wa), Bits(b, wb)) {
      PrefixIsShift(a, wa, b, wb);
      NoLeadingBitsMatch(s, t);
    }
  }

  /** No fixed code value is the leading bits of another, longer or equally long, one. */
  lemma NoLeadingBitsMatch(s: nat, t: nat)
    requires s < 288 && t < 288 && s != t && StaticWidth(s) <= StaticWidth(t)
    ensures StaticCodeValue(s) != StaticCodeValue(t) / Pow2(StaticWidth(t) - StaticWidth(s))
  {
    assert Pow2(0) == 1 && Pow2(1) == 2 && Pow2(2) == 4;
  }

  lemma DivShrinksTo(x: nat, d: nat, bound: nat)
    requires d >= 1 && x < d * bound
    ensures x / d < bound
  {
    if x / d >= bound {
      MulLe(d, bound, x / d);
    }
  }

  lemma MulLe(d: nat, a: nat, b: nat)
    requires a <= b
    ensures d * a <= d * b
  {
    assert d * b == d * a + d * (b - a);
  }

  // ---------------------------------------------------------------- canonical codes

  /** How many of the first `n` symbols have code length `len`: `bl_count` of section 3.2.2
      of RFC 1951, counted up to `n`. */
  function CountOfLength(lengths: seq<nat>, len: nat, n: nat): nat
    requires n <= |lengths|
  {
    if n == 0 then 0 else CountOfLength(lengths, len, n - 1) + (if lengths[n - 1] == len then 1 else 0)
  }

  /** `next_code[bits]` of section 3.2.2: the smallest code of each length. */
  function FirstCode(lengths: seq<nat>, bits: nat): nat
  {
    if bits <= 1 then 0 else (FirstCode(lengths, bits - 1) + CountOfLength(lengths, bits - 1, |lengths|)) * 2
  }

  /** The code section 3.2.2 gives symbol `s`: codes of one length are consecutive, in symbol
      order. */
  function CanonicalCode(lengths: seq<nat>, s: nat): nat
    requires s < |lengths|
  {
    FirstCode(lengths, lengths[s]) + CountOfLength(lengths, lengths[s], s)
  }

  /** The code lengths of section 3.2.6, symbol by symbol. */
  function FixedLengths(): (lengths: seq<nat>)
    ensures |lengths| == 288
  {
    seq(288, s => StaticWidth(s))
  }

  function Clamp(n: nat, lo: nat, hi: nat): nat
  {
    if n < lo then lo else if n > hi then hi else n
  }

  lemma {:induction false} FixedCounts(len: nat, n: nat)
    requires n <= 288
    ensures CountOfLength(FixedLengths(), len, n) ==
      if len == 7 then Clamp(n, 256, 280) - 256
      else if len == 8 then Clamp(n, 0, 144) + Clamp(n, 280, 288) - 280
      else if len == 9 then Clamp(n, 144, 256) - 144
      else 0
  {
    if n > 0 {
      FixedCounts(len, n - 1);
    }
  }

  lemma {:induction false} FixedFirstCodes(bits: nat)
    requires bits <= 7
    ensures FirstCode(FixedLengths(), bits) == 0
  {
    if bits > 1 {
      FixedFirstCodes(bits - 1);
      FixedCounts(bits - 1, 288);
    }
  }

  /** The numbers the source writes for the fixed code are the canonical codes of its code
      lengths. */
  lemma StaticCodeIsCanonical(s: nat)
    requires s < 288
    ensures StaticWidth(s) == FixedLengths()[s]
    ensures StaticCodeValue(s) == CanonicalCode(FixedLengths(), s)
  {
    FixedFirstCodes(7);
    FixedCounts(7, 288);
    FixedCounts(8, 288);
    assert FirstCode(FixedLengths(), 8) == 48;
    assert FirstCode(FixedLengths(), 9) == 400;
    FixedCounts(StaticWidth(s), s);
  }

  // ---------------------------------------------------------------- the fixed trie

  /** Symbol `s` is in place: its code leads to its value through internal nodes. */
  predicate Found(root: Trie, s: nat)
    requires s < 288
  {
    && Lookup(root, StaticCode(s)) == Ok(Leaf(StaticValue(s)))
    && forall k :: 1 <= k < |StaticCode(s)| ==> NodeAt(root, StaticCode(s)[..k])
  }

  /** The symbols below `n` are in place. */
  predicate Built(root: Trie, n: nat)
    requires n <= 288
  {
    root.Node? && forall s :: 0 <= s < n ==> Found(root, s)
  }

  /** Inserting the next symbol's code keeps the ones before it in place. */
  lemma InsertStatic(root: Trie, n: nat)
    requires n < 288 && Built(root, n)
    ensures Built(Insert(root, StaticCode(n), StaticValue(n)), n + 1)
  {
    InsertFinds(root, StaticCode(n), StaticValue(n));
    forall s | 0 <= s < n
      ensures Found(Insert(root, StaticCode(n), StaticValue(n)), s)
    {
      InsertKeepsFound(root, n, s);
    }
  }

  lemma InsertKeepsFound(root: Trie, n: nat, s: nat)
    requires s < n < 288 && root.Node? && Found(root, s)
    ensures Found(Insert(root, StaticCode(n), StaticValue(n)), s)
  {
    StaticCodesApart(s, n);
    StaticCodesApart(n, s);
    InsertKeepsPath(root, StaticCode(n), StaticValue(n), StaticCode(s));
  }

  /** Inserting a code that neither is a prefix of `other` nor has `other` as a prefix keeps
      what `other` leads to and the internal nodes on its way. */
  lemma InsertKeepsPath(root: Trie, code: string, v: Value, other: string)
    requires root.Node? && |code| >= 1 && IsBitString(code)
    requires !IsPrefix(code, other) && !IsPrefix(other, code)
    requires Lookup(root, other).Ok?
    requires forall k :: 1 <= k < |other| ==> NodeAt(root, other[..k])
    ensures Lookup(Insert(root, code, v), other) == Lookup(root, other)
    ensures forall k :: 1 <= k < |other| ==> NodeAt(Insert(root, code, v), other[..k])
  {
    InsertKeeps(root, code, v, other);
    forall k | 1 <= k < |other|
      ensures NodeAt(Insert(root, code, v), other[..k])
    {
      assert NodeAt(root, other[..k]);
      assert !IsPrefix(code, other[..k]) by {
        if |code| <= k {
          assert other[..k][..|code|] == other[..|code|];
        }
      }
      InsertKeepsNode(root, code, v, other[..k]);
    }
  }

  /** An internal node that the inserted code does not run through to its end stays one. */
  lemma InsertKeepsNode(root: Trie, code: string, v: Value, p: string)
    requires root.Node? && |code| >= 1 && IsBitString(code)
    requires 1 <= |p| && !IsPrefix(code, p) && NodeAt(root, p)
    ensures NodeAt(Insert(root, code, v), p)
  {
    if IsPrefix(p, code) {
      InsertFinds(root, code, v);
      assert p == code[..|p|];
    } else {
      InsertKeeps(root, code, v, p);
    }
  }

  /** `generateStaticHuffmanTree()`: the four ranges of the fixed code go into an empty trie,
      each code written as the source writes it. */
  method GenerateStaticHuffmanTree() returns (root: Trie)
    ensures Built(root, 288)
  {
    root := Node(Absent, Absent);
    root := InsertEightBitLiterals(root);
    root := InsertNineBitLiterals(root);
    root := InsertSevenBitLengths(root);
    root := InsertEightBitLengths(root);
  }

  /** The first loop: literals 0..143, codes `0x30 + i` on 8 bits. */
  method InsertEightBitLiterals(start: Trie) returns (root: Trie)
    requires Built(start, 0)
    ensures Built(root, 144)
  {
    root := start;
    for i := 0x30 to 0xC0
      invariant Built(root, i - 0x30)
    {
      var code := PadStart(Radix(i, 2), 8, '0');
      var value := Literal(i - 0x30);
      PaddedRadixIsBits(i, 8);
      InsertStatic(root, i - 0x30);
      root := Insert(root, code, value);
    }
  }

  /** The second loop: literals 144..255, codes from `0x190` on 9 bits. */
  method InsertNineBitLiterals(start: Trie) returns (root: Trie)
    requires Built(start, 144)
    ensures Built(root, 256)
  {
    root := start;
    for i := 0x190 to 0x200
      invariant Built(root, i - 0x190 + 144)
    {
      var value := Literal(i - 0x190 + 144);
      RadixIsBits(i, 9);
      InsertStatic(root, i - 0x190 + 144);
      root := Insert(root, Radix(i, 2), value);
    }
  }

  /** The third loop: end of block and lengths 1..23, codes `i` on 7 bits. */
  method InsertSevenBitLengths(start: Trie) returns (root: Trie)
    requires Built(start, 256)
    ensures Built(root, 280)
  {
    root := start;
    for i := 0 to 0x18
      invariant Built(root, 256 + i)
    {
      var code := PadStart(Radix(i, 2), 7, '0');
      var value := if i != 0 then LengthValue(i) else EndOfBlock;
      PaddedRadixIsBits(i, 7);
      InsertStatic(root, 256 + i);
      root := Insert(root, code, value);
    }
  }

  /** The fourth loop: lengths 24..31, codes from `0xC0` on 8 bits. */
  method InsertEightBitLengths(start: Trie) returns (root: Trie)
    requires Built(start, 280)
    ensures Built(root, 288)
  {
    root := start;
    for i := 0xC0 to 0xC8
      invariant Built(root, 280 + i - 0xC0)
    {
      var index := i - 0xC0 + 24;
      var value := LengthValue(index);
      RadixIsBits(i, 8);
      InsertStatic(root, 280 + i - 0xC0);
      root := Insert(root, Radix(i, 2), value);
    }
  }

  // ---------------------------------------------------------------- the dynamic block header

  /** `n` bits of `x` starting at bit `p`: `(x >> p) & ((1 << n) - 1)`. */
  function Field(x: nat, p: nat, n: nat): (v: nat)
    ensures v < Pow2(n)
  {
    x / Pow2(p) % Pow2(n)
  }

  /** `n` bits of a block starting at bit `p`, least significant first (section 3.1.1 of
      RFC 1951): the bytes read as one little-endian number. Past the end the bits are zero, as
      `undefined` is in a shift. */
  function StreamBits(data: seq<byte>, p: nat, n: nat): (v: nat)
    ensures v < Pow2(n)
  {
    Field(LeUint(data), p, n)
  }

  /** `data[k]` as a shift operand: `undefined` past the end counts as 0. */
  function ByteAt(data: seq<byte>, k: nat): byte
  {
    if k < |data| then data[k] else 0
  }

  /** A run of bits is its low part plus its high part shifted up. */
  lemma SplitField(x: nat, p: nat, n: nat, m: nat)
    ensures Field(x, p, n + m) == Field(x, p, n) + Pow2(n) * Field(x, p + n, m)
  {
    Pow2Add(n, m);
    Pow2Add(p, n);
    ShiftedDivDiv(x, Pow2(p), Pow2(n), Pow2(m));
  }

  /** `bits & ((1 << k) - 1)` and `bits >> k` on a run of bits. */
  lemma LowAndHighField(x: nat, p: nat, n: nat, k: nat)
    requires k <= n
    ensures Field(x, p, n) % Pow2(k) == Field(x, p, k)
    ensures Field(x, p, n) / Pow2(k) == Field(x, p + k, n - k)
  {
    SplitField(x, p, k, n - k);
    LowPlusHigh(Field(x, p, n), Pow2(k), Field(x, p, k), Field(x, p + k, n - k));
  }

  /** A number that is `low` plus `d` times `high`, with `low < d`, has `low` as its remainder
      by `d` and `high` as its quotient. */
  lemma LowPlusHigh(v: nat, d: nat, low: nat, high: nat)
    requires low < d && v == low + d * high
    ensures v % d == low && v / d == high
  {
    DivModUnique(v, d, high, low);
  }

  /** Byte `k` holds bits `8k` to `8k + 7`. */
  lemma {:induction false} ByteOfStream(data: seq<byte>, k: nat)
    ensures StreamBits(data, 8 * k, 8) == ByteAt(data, k)
  {
    if data != [] {
      FieldAboveByte(data[0], LeUint(data[1..]), k);
      if k > 0 {
        ByteOfStream(data[1..], k - 1);
      }
    }
  }

  /** Prepending a byte to a little-endian number moves its bytes up by one. */
  lemma FieldAboveByte(low: byte, high: nat, k: nat)
    ensures Field(low + 256 * high, 8 * k, 8) == if k == 0 then low else Field(high, 8 * (k - 1), 8)
  {
    var x := low + 256 * high;
    assert Pow2(8) == 256;
    DivModUnique(x, 256, high, low);
    if k > 0 {
      Pow2Add(8, 8 * (k - 1));
      DivDiv(x, 256, Pow2(8 * (k - 1)));
    }
  }

  /** `hlit`, `hdist` and `hclen` as the source computes them are the 5-, 5- and 4-bit fields
      after the three header bits of the block. */
  lemma HeaderFields(data: seq<byte>)
    ensures ByteAt(data, 0) / 8 == StreamBits(data, 3, 5)
    ensures ByteAt(data, 1) % 32 == StreamBits(data, 8, 5)
    ensures ByteAt(data, 1) / 32 + ByteAt(data, 2) % 2 * 8 == StreamBits(data, 13, 4)
    ensures ByteAt(data, 2) / 2 == StreamBits(data, 17, 7)
  {
    assert Pow2(1) == 2 && Pow2(3) == 8 && Pow2(5) == 32;
    ByteOfStream(data, 0);
    ByteOfStream(data, 1);
    ByteOfStream(data, 2);
    LowAndHighField(LeUint(data), 0, 8, 3);
    LowAndHighField(LeUint(data), 8, 8, 5);
    LowAndHighField(LeUint(data), 16, 8, 1);
    SplitField(LeUint(data), 13, 3, 1);
  }

  /** What `getBits` keeps between calls: `rest` holds the `bits` stream bits that come before
      byte `byteIndex + 1`. */
  predicate Holds(data: seq<byte>, byteIndex: nat, rest: nat, bits: nat)
  {
    bits <= 8 * (byteIndex + 1) && rest == StreamBits(data, 8 * (byteIndex + 1) - bits, bits)
  }

  /** Refilling: the next byte goes in above the held bits. */
  lemma Refill(data: seq<byte>, byteIndex: nat, rest: nat, bits: nat)
    requires Holds(data, byteIndex, rest, bits)
    ensures Holds(data, byteIndex + 1, rest + Pow2(bits) * ByteAt(data, byteIndex + 1), bits + 8)
  {
    var p := 8 * (byteIndex + 1) - bits;
    assert rest == StreamBits(data, p, bits);
    RefillFrom(data, p, bits, byteIndex + 1, rest);
  }

  /** Refilling, with the start `p` of the held bits named. */
  lemma RefillFrom(data: seq<byte>, p: nat, n: nat, k: nat, rest: nat)
    requires p + n == 8 * k && rest == StreamBits(data, p, n)
    ensures Holds(data, k, rest + Pow2(n) * ByteAt(data, k), n + 8)
  {
    RefillBits(data, p, n, k);
    HoldsFrom(data, k, rest + Pow2(n) * ByteAt(data, k), n + 8, p);
  }

  /** The `n + 8` bits from `p`, when the first `n` of them end at byte `k`. */
  lemma RefillBits(data: seq<byte>, p: nat, n: nat, k: nat)
    requires p + n == 8 * k
    ensures StreamBits(data, p, n + 8) == StreamBits(data, p, n) + Pow2(n) * ByteAt(data, k)
  {
    SplitField(LeUint(data), p, n, 8);
    ByteBits(data, p + n, k);
  }

  /** The eight bits from `q = 8k` are byte `k`. */
  lemma ByteBits(data: seq<byte>, q: nat, k: nat)
    requires q == 8 * k
    ensures Field(LeUint(data), q, 8) == ByteAt(data, k)
  {
    ByteOfStream(data, k);
  }

  /** `Holds` for the bits that start at `p`. */
  lemma HoldsFrom(data: seq<byte>, byteIndex: nat, rest: nat, bits: nat, p: nat)
    requires p + bits == 8 * (byteIndex + 1) && rest == StreamBits(data, p, bits)
    ensures Holds(data, byteIndex, rest, bits)
  {
  }

  /** Taking the low `nb` held bits leaves the ones above them held. */
  lemma Take(data: seq<byte>, byteIndex: nat, rest: nat, bits: nat, nb: nat)
    requires Holds(data, byteIndex, rest, bits) && nb <= bits
    ensures rest % Pow2(nb) == StreamBits(data, 8 * (byteIndex + 1) - bits, nb)
    ensures Holds(data, byteIndex, rest / Pow2(nb), bits - nb)
  {
    LowAndHighField(LeUint(data), 8 * (byteIndex + 1) - bits, bits, nb);
  }

  /** `getBits(nb)`: one more byte goes in above the held bits when they are too few, then the
      low `nb` bits are taken. The closure's variables are passed in and out. */
  method GetBits(data: seq<byte>, byteIndex: nat, rest: nat, nbOfBitsForRest: nat, nb: nat)
    returns (code: nat, byteIndex': nat, rest': nat, nbOfBitsForRest': nat)
    requires Holds(data, byteIndex, rest, nbOfBitsForRest) && nb <= 8
    ensures code == StreamBits(data, 8 * (byteIndex + 1) - nbOfBitsForRest, nb)
    ensures Holds(data, byteIndex', rest', nbOfBitsForRest')
    ensures 8 * (byteIndex' + 1) - nbOfBitsForRest' == 8 * (byteIndex + 1) - nbOfBitsForRest + nb
  {
    byteIndex', rest', nbOfBitsForRest' := byteIndex, rest, nbOfBitsForRest;
    if nbOfBitsForRest' < nb {
      Refill(data, byteIndex', rest', nbOfBitsForRest');
      byteIndex' := byteIndex' + 1;
      rest' := rest' + Pow2(nbOfBitsForRest') * ByteAt(data, byteIndex');
      nbOfBitsForRest' := nbOfBitsForRest' + 8;
    }
    Take(data, byteIndex', rest', nbOfBitsForRest', nb);
    code := rest' % Pow2(nb);
    rest' := rest' / Pow2(nb);
    nbOfBitsForRest' := nbOfBitsForRest' - nb;
  }

  /** The order in which a dynamic header lists the code lengths of the code length alphabet
      (section 3.2.7 of RFC 1951). */
  const CL_LENGTHS_ORDER: seq<nat> := [16, 17, 18, 0, 8, 7, 9, 6, 10, 5, 11, 4, 12, 3, 13, 2, 14, 1, 15]

  /** Where each code length symbol's length sits in that list. */
  const CL_POSITION: seq<nat> := [3, 17, 15, 13, 11, 9, 7, 5, 4, 6, 8, 10, 12, 14, 16, 18, 0, 1, 2]

  /** The two tables are inverse permutations of `0..18`. */
  lemma OrderAndPosition()
    ensures |CL_LENGTHS_ORDER| == 19 && |CL_POSITION| == 19
    ensures forall i :: 0 <= i < 19 ==> CL_LENGTHS_ORDER[i] < 19 && CL_POSITION[CL_LENGTHS_ORDER[i]] == i
    ensures forall k :: 0 <= k < 19 ==> CL_POSITION[k] < 19 && CL_LENGTHS_ORDER[CL_POSITION[k]] == k
  {
  }

  /** The code length code lengths a header gives: the `count` three-bit fields after bit 17,
      placed in list order; lengths the header does not list are 0. */
  function CodeLengthLengths(data: seq<byte>, count: nat): (lengths: seq<nat>)
    ensures |lengths| == 19
    ensures forall k :: 0 <= k < 19 ==> lengths[k] < 8
  {
    assert Pow2(3) == 8;
    seq(19, k requires 0 <= k < 19 =>
      if CL_POSITION[k] < count then StreamBits(data, 17 + 3 * CL_POSITION[k], 3) else 0)
  }

  /** Field `i` of the list lands at `CL_LENGTHS_ORDER[i]`, and a symbol whose position is past
      the listed count gets 0. */
  lemma CodeLengthLengthsPlaced(data: seq<byte>, count: nat)
    ensures forall i :: 0 <= i < 19 && i < count ==>
      CodeLengthLengths(data, count)[CL_LENGTHS_ORDER[i]] == StreamBits(data, 17 + 3 * i, 3)
    ensures forall i :: 0 <= i < 19 && count <= i ==> CodeLengthLengths(data, count)[CL_LENGTHS_ORDER[i]] == 0
  {
    OrderAndPosition();
  }

  /** Reading field `i` extends the lengths placed so far by one. */
  lemma PlaceNext(data: seq<byte>, i: nat)
    requires i < 19
    ensures CL_LENGTHS_ORDER[i] < 19
    ensures CodeLengthLengths(data, i)[CL_LENGTHS_ORDER[i] := StreamBits(data, 17 + 3 * i, 3)]
      == CodeLengthLengths(data, i + 1)
  {
    OrderAndPosition();
  }

  /** The three fields of a dynamic block header and the code length code lengths after them,
      as `generateDynamicHuffmanTree` reads them. `data` starts with the block's own three
      header bits. */
  method ReadDynamicHeader(data: seq<byte>) returns (hlit: nat, hdist: nat, hclen: nat, lengths: seq<nat>)
    ensures hlit == StreamBits(data, 3, 5) + 257
    ensures hdist == StreamBits(data, 8, 5) + 1
    ensures hclen == StreamBits(data, 13, 4) + 4
    ensures lengths == CodeLengthLengths(data, hclen)
  {
    HeaderFields(data);
    assert Pow2(4) == 16;
    hlit := ByteAt(data, 0) / 8 + 257;
    hdist := ByteAt(data, 1) % 32 + 1;
    hclen := ByteAt(data, 1) / 32 + ByteAt(data, 2) % 2 * 8 + 4;
    var byteIndex: nat := 2;
    var rest: nat := ByteAt(data, 2) / 2;
    var nbOfBitsForRest: nat := 7;
    lengths := seq(19, _ => 0);
    assert lengths == CodeLengthLengths(data, 0);
    for i := 0 to hclen
      invariant Holds(data, byteIndex, rest, nbOfBitsForRest)
      invariant 8 * (byteIndex + 1) - nbOfBitsForRest == 17 + 3 * i
      invariant lengths == CodeLengthLengths(data, i)
    {
      var code;
      code, byteIndex, rest, nbOfBitsForRest := GetBits(data, byteIndex, rest, nbOfBitsForRest, 3);
      assert code == StreamBits(data, 17 + 3 * i, 3);
      PlaceNext(data, i);
      lengths := lengths[CL_LENGTHS_ORDER[i] := code];
    }
  }
}
