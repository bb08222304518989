/** `generateTheCodes` in zip/zip.js: the bit strings the dynamic Huffman tree is built from,
    given one code length per symbol. The symbols are stably sorted by length, then a code value
    is handed out from the back of that order in left-aligned 16-bit arithmetic, and each symbol's
    code is the top `length` bits of its value, reversed. */
module ZipCodes {
  import opened Bytes
  import opened Text
  import opened ZipHuffman

  /** Every length fits the 16-bit arithmetic: `1 << (16 - length)` is a plain power of two. */
  predicate Short(lengths: seq<nat>)
  {
    forall k :: 0 <= k < |lengths| ==> lengths[k] <= 16
  }

  // ---------------------------------------------------------------- the stable sort by length

  /** Symbol `a` comes before symbol `b` in a stable sort by length of `0, 1, 2, ...`. */
  predicate Before(lengths: seq<nat>, a: nat, b: nat)
    requires a < |lengths| && b < |lengths|
  {
    lengths[a] < lengths[b] || (lengths[a] == lengths[b] && a < b)
  }

  /** The symbols from `from` on whose length is `len`, in index order. */
  function OfLength(lengths: seq<nat>, len: nat, from: nat): (r: seq<nat>)
    ensures forall j :: 0 <= j < |r| ==> from <= r[j] < |lengths| && lengths[r[j]] == len
    decreases |lengths| - from
  {
    if from >= |lengths| then []
    else (if lengths[from] == len then [from] else []) + OfLength(lengths, len, from + 1)
  }

  /** The symbols whose length is between `len` and 16, shortest first, ties in index order. */
  function Groups(lengths: seq<nat>, len: nat): (r: seq<nat>)
    ensures forall j :: 0 <= j < |r| ==> r[j] < |lengths| && len <= lengths[r[j]] <= 16
    decreases 17 - len
  {
    if len > 16 then [] else OfLength(lengths, len, 0) + Groups(lengths, len + 1)
  }

  /** `lengths.map((value, index) => [value, index]).sort(([a], [b]) => a - b)`, as the
      indices it leaves in order. `Array.prototype.sort` is stable. */
  function ByLength(lengths: seq<nat>): (order: seq<nat>)
    ensures forall j :: 0 <= j < |order| ==> order[j] < |lengths|
  {
    Groups(lengths, 0)
  }

  lemma {:induction false} OfLengthOrdered(lengths: seq<nat>, len: nat, from: nat)
    ensures forall i, j :: 0 <= i < j < |OfLength(lengths, len, from)| ==>
      OfLength(lengths, len, from)[i] < OfLength(lengths, len, from)[j]
    ensures forall k :: from <= k < |lengths| && lengths[k] == len ==> k in OfLength(lengths, len, from)
    decreases |lengths| - from
  {
    if from < |lengths| {
      OfLengthOrdered(lengths, len, from + 1);
    }
  }

  lemma {:induction false} GroupsOrdered(lengths: seq<nat>, len: nat)
    ensures forall i, j :: 0 <= i < j < |Groups(lengths, len)| ==>
      Before(lengths, Groups(lengths, len)[i], Groups(lengths, len)[j])
    ensures forall k :: 0 <= k < |lengths| && len <= lengths[k] <= 16 ==> k in Groups(lengths, len)
    decreases 17 - len
  {
    if len <= 16 {
      OfLengthOrdered(lengths, len, 0);
      GroupsOrdered(lengths, len + 1);
      var here, later := OfLength(lengths, len, 0), Groups(lengths, len + 1);
      assert Groups(lengths, len) == here + later;
      forall i, j | 0 <= i < j < |here + later|
        ensures Before(lengths, (here + later)[i], (here + later)[j])
      {
        if j < |here| {
          assert here[i] < here[j];
        } else if i >= |here| {
          assert Before(lengths, later[i - |here|], later[j - |here|]);
        } else {
          assert lengths[here[i]] == len < lengths[later[j - |here|]];
        }
      }
    }
  }

  /** The sort's order is strictly increasing by (length, index), so no symbol appears twice,
      and it holds every symbol, so it is a permutation of `0 .. |lengths| - 1`. */
  lemma ByLengthIsStableSort(lengths: seq<nat>)
    requires Short(lengths)
    ensures forall i, j :: 0 <= i < j < |ByLength(lengths)| ==>
      Before(lengths, ByLength(lengths)[i], ByLength(lengths)[j])
    ensures forall i, j :: 0 <= i < j < |ByLength(lengths)| ==> ByLength(lengths)[i] != ByLength(lengths)[j]
    ensures forall k :: 0 <= k < |lengths| ==> k in ByLength(lengths)
  {
    GroupsOrdered(lengths, 0);
  }

  /** One element of the sorted copy: `[value, index]`, a code length and its symbol. */
  datatype Entry = Entry(length: nat, symbol: nat)

  /** Every length of a sorted copy fits the 16-bit arithmetic. */
  predicate Fits(copy: seq<Entry>)
  {
    forall j :: 0 <= j < |copy| ==> copy[j].length <= 16
  }

  /** The sorted copy: each symbol of the sort's order with its length. */
  function Sorted(lengths: seq<nat>): (copy: seq<Entry>)
    ensures |copy| == |ByLength(lengths)|
    ensures forall j :: 0 <= j < |copy| ==>
      copy[j].symbol == ByLength(lengths)[j] && copy[j].length == lengths[copy[j].symbol]
    ensures Short(lengths) ==> Fits(copy)
  {
    var order := ByLength(lengths);
    seq(|order|, j requires 0 <= j < |order| => Entry(lengths[order[j]], order[j]))
  }

  /** Where symbol `k` sits in a sorted copy; `|copy|` when it is absent. The source finds it by
      sorting the values back by symbol. */
  function Pos(copy: seq<Entry>, k: nat): (p: nat)
    ensures p <= |copy|
    ensures p < |copy| ==> copy[p].symbol == k
    ensures (exists j :: 0 <= j < |copy| && copy[j].symbol == k) ==> p < |copy|
  {
    if copy == [] then 0
    else if copy[0].symbol == k then 0
    else
      var p := 1 + Pos(copy[1..], k);
      assert forall j :: 1 <= j < |copy| ==> copy[1..][j - 1] == copy[j];
      p
  }

  /** Every symbol has its place in the sorted copy. */
  lemma SortedHoldsEvery(lengths: seq<nat>, k: nat)
    requires Short(lengths) && k < |lengths|
    ensures Pos(Sorted(lengths), k) < |Sorted(lengths)|
  {
    ByLengthIsStableSort(lengths);
    var order := ByLength(lengths);
    assert k in order;
    var j :| 0 <= j < |order| && order[j] == k;
    assert Sorted(lengths)[j].symbol == k;
  }

  /** The lengths of a sorted copy never decrease. */
  lemma SortedAscends(lengths: seq<nat>)
    requires Short(lengths)
    ensures forall a, b :: 0 <= a < b < |Sorted(lengths)| ==>
      Sorted(lengths)[a].length <= Sorted(lengths)[b].length
  {
    ByLengthIsStableSort(lengths);
    var order, copy := ByLength(lengths), Sorted(lengths);
    forall a, b | 0 <= a < b < |copy| ensures copy[a].length <= copy[b].length {
      assert Before(lengths, order[a], order[b]);
    }
  }

  // ---------------------------------------------------------------- the code values

  /** Only zero lengths from sorted position `j` on. */
  predicate ZeroFrom(copy: seq<Entry>, j: nat)
  {
    forall m :: j <= m < |copy| ==> copy[m].length == 0
  }

  /** What the code value advances by after the symbol at sorted position `j`: `2^(16 - length)`,
      except that it stays 0 while only zero lengths have been seen. */
  function Step(copy: seq<Entry>, j: nat): (s: nat)
    requires j < |copy| && copy[j].length <= 16
    ensures copy[j].length > 0 ==> s == Pow2(16 - copy[j].length)
  {
    if ZeroFrom(copy, j) then 0 else Pow2(16 - copy[j].length)
  }

  /** The steps of sorted positions `j` onwards added up. */
  function StepsFrom(copy: seq<Entry>, j: nat): nat
    requires Fits(copy)
    decreases |copy| - j
  {
    if j >= |copy| then 0 else Step(copy, j) + StepsFrom(copy, j + 1)
  }

  /** The Kraft sum `sum 2^(16 - length)` of sorted positions `j` onwards, in units of `2^-16`. */
  function Kraft(copy: seq<Entry>, j: nat): nat
    requires Fits(copy)
    decreases |copy| - j
  {
    if j >= |copy| then 0 else Pow2(16 - copy[j].length) + Kraft(copy, j + 1)
  }

  /** Once the lengths are sorted, the steps after a symbol in use (length above 0) are the Kraft
      sum: every later symbol is in use too. */
  lemma {:induction false} StepsAreKraft(copy: seq<Entry>, j: nat)
    requires Fits(copy)
    requires forall a, b :: 0 <= a < b < |copy| ==> copy[a].length <= copy[b].length
    requires j < |copy| ==> copy[j].length > 0
    ensures StepsFrom(copy, j) == Kraft(copy, j)
    decreases |copy| - j
  {
    if j < |copy| {
      if j + 1 < |copy| {
        assert copy[j].length <= copy[j + 1].length;
      }
      StepsAreKraft(copy, j + 1);
    }
  }

  /** `Array.from(s).reverse().join('')`. */
  function Reverse(s: string): (r: string)
    ensures |r| == |s|
    ensures forall i :: 0 <= i < |s| ==> r[i] == s[|s| - 1 - i]
  {
    if s == [] then [] else Reverse(s[1..]) + [s[0]]
  }

  /** `code.toString(2).padStart(16, '0').slice(0, length)`, reversed. */
  function Shape(code: nat, length: nat): (s: string)
    requires length <= 16
    ensures |s| == length && IsBitString(s)
  {
    var digits := PadStart(Radix(code, 2), 16, '0');
    BinaryDigits(code);
    ReversedBits(digits[..length]);
    Reverse(digits[..length])
  }

  /** `toString(2)` padded with zeros writes only zeros and ones. */
  lemma BinaryDigits(code: nat)
    ensures IsBitString(PadStart(Radix(code, 2), 16, '0'))
  {
    var digits := Radix(code, 2);
    var padded := PadStart(digits, 16, '0');
    forall i | 0 <= i < |padded| ensures padded[i] == '0' || padded[i] == '1' {
      if i >= |padded| - |digits| {
        assert padded[i] == digits[i - (|padded| - |digits|)];
        assert IsDigit(digits[i - (|padded| - |digits|)], 2);
      }
    }
  }

  lemma ReversedBits(s: string)
    requires IsBitString(s)
    ensures IsBitString(Reverse(s))
  {
    var r := Reverse(s);
    forall i | 0 <= i < |r| ensures r[i] == '0' || r[i] == '1' {
      assert r[i] == s[|s| - 1 - i];
    }
  }

  /** The code of symbol `k` with the given length: the symbol at sorted position `p` gets the
      steps of the positions after it as its value. */
  function CodeIn(copy: seq<Entry>, k: nat, length: nat): (code: string)
    requires Fits(copy) && length <= 16
    ensures |code| == length && IsBitString(code)
  {
    Shape(StepsFrom(copy, Pos(copy, k) + 1), length)
  }

  /** The codes `generateTheCodes` returns: each symbol's code, in symbol order, as long as its
      code length and made of zeros and ones. */
  function TheCodes(lengths: seq<nat>): (codes: seq<string>)
    requires Short(lengths)
    ensures |codes| == |lengths|
    ensures forall k :: 0 <= k < |lengths| ==> codes[k] == CodeIn(Sorted(lengths), k, lengths[k])
    ensures forall k :: 0 <= k < |lengths| ==> |codes[k]| == lengths[k] && IsBitString(codes[k])
  {
    seq(|lengths|, k requires 0 <= k < |lengths| => CodeIn(Sorted(lengths), k, lengths[k]))
  }

  /** A symbol in use gets the Kraft sum of the symbols after it in the sort as its value. */
  lemma UsedCodeValue(lengths: seq<nat>, k: nat)
    requires Short(lengths) && k < |lengths| && lengths[k] > 0
    ensures var p := Pos(Sorted(lengths), k);
      p < |Sorted(lengths)| && TheCodes(lengths)[k] == Shape(Kraft(Sorted(lengths), p + 1), lengths[k])
  {
    SortedHoldsEvery(lengths, k);
    var copy := Sorted(lengths);
    var p := Pos(copy, k);
    assert copy[p].length == lengths[k];
    if p + 1 < |copy| {
      assert copy[p].length <= copy[p + 1].length by {
        SortedAscends(lengths);
      }
    }
    assert StepsFrom(copy, p + 1) == Kraft(copy, p + 1) by {
      SortedAscends(lengths);
      StepsAreKraft(copy, p + 1);
    }
    assert TheCodes(lengths)[k] == CodeIn(copy, k, lengths[k]);
  }

  /** `generateTheCodes(lengths)`: the stable sort, the loop over the sorted symbols from the
      back, then the values sorted back into symbol order and shaped. */
  method GenerateTheCodes(lengths: seq<nat>) returns (codes: seq<string>)
    requires Short(lengths)
    ensures codes == TheCodes(lengths)
  {
    var copy := Sorted(lengths);
    var shannonCode := CodeValues(copy);
    forall k | 0 <= k < |lengths| ensures Pos(copy, k) < |copy| {
      SortedHoldsEvery(lengths, k);
    }
    codes := seq(|lengths|, k requires 0 <= k < |lengths| => Shape(shannonCode[Pos(copy, k)], lengths[k]));
  }

  /** The `while` loop of `generateTheCodes`: walking the sorted copy from the back, the value
      handed out grows by `1 << (16 - length)` of the entry before, the increment changing only
      when the length does. `shannonCode[p]` is the value of the entry at sorted position `p`: the
      steps of the positions after it. */
  method CodeValues(copy: seq<Entry>) returns (shannonCode: seq<nat>)
    requires Fits(copy)
    ensures |shannonCode| == |copy|
    ensures forall p :: 0 <= p < |copy| ==> shannonCode[p] == StepsFrom(copy, p + 1)
  {
    shannonCode := seq(|copy|, _ => 0);
    var code: nat, codeIncrement: nat, lastBitLength: nat := 0, 0, 0;
    var i: int := |copy| - 1;
    while i >= 0
      invariant -1 <= i < |copy| && |shannonCode| == |copy|
      invariant code == StepsFrom(copy, i + 2)
      invariant lastBitLength == if i + 1 < |copy| then copy[i + 1].length else 0
      invariant codeIncrement == if i + 1 < |copy| then Step(copy, i + 1) else 0
      invariant forall j :: i < j < |copy| ==> shannonCode[j] == StepsFrom(copy, j + 1)
    {
      Advance(copy, i, lastBitLength, codeIncrement);
      code := code + codeIncrement;
      if copy[i].length != lastBitLength {
        lastBitLength := copy[i].length;
        codeIncrement := Pow2(16 - lastBitLength);
      }
      shannonCode := shannonCode[i := code];
      i := i - 1;
    }
  }

  /** One turn of the loop at sorted position `i`: the value grows by the step of position
      `i + 1`, and the increment becomes the step of position `i`, a new power of two exactly when
      the length changes. */
  lemma Advance(copy: seq<Entry>, i: nat, lastBitLength: nat, codeIncrement: nat)
    requires Fits(copy) && i < |copy|
    requires lastBitLength == if i + 1 < |copy| then copy[i + 1].length else 0
    requires codeIncrement == if i + 1 < |copy| then Step(copy, i + 1) else 0
    ensures StepsFrom(copy, i + 1) == StepsFrom(copy, i + 2) + codeIncrement
    ensures Step(copy, i) == if copy[i].length != lastBitLength then Pow2(16 - copy[i].length) else codeIncrement
  {
    if i + 1 < |copy| && ZeroFrom(copy, i + 1) && copy[i].length == 0 {
      assert ZeroFrom(copy, i);
    }
  }

  /** A code value below `2^16` becomes the first `length` of its 16 bits, reversed. */
  lemma ShapeIsTopBits(code: nat, length: nat)
    requires code < Pow2(16) && length <= 16
    ensures Shape(code, length) == Reverse(Bits(code, 16)[..length])
  {
    PaddedRadixIsBits(code, 16);
  }

  /** No symbol is longer than `len - 1`: nothing is left for lengths `len` and up. */
  lemma {:induction false} NoLongerGroups(lengths: seq<nat>, len: nat)
    requires forall k :: 0 <= k < |lengths| ==> lengths[k] < len
    ensures Groups(lengths, len) == []
    decreases 17 - len
  {
    if len <= 16 {
      NoneOfLength(lengths, len, 0);
      NoLongerGroups(lengths, len + 1);
    }
  }

  lemma {:induction false} NoneOfLength(lengths: seq<nat>, len: nat, from: nat)
    requires forall k :: 0 <= k < |lengths| ==> lengths[k] != len
    ensures OfLength(lengths, len, from) == []
    decreases |lengths| - from
  {
    if from < |lengths| {
      NoneOfLength(lengths, len, from + 1);
    }
  }

  /** The symbol found first at position `p` is found there. */
  lemma {:induction false} PosAt(copy: seq<Entry>, k: nat, p: nat)
    requires p < |copy| && copy[p].symbol == k
    requires forall j :: 0 <= j < p ==> copy[j].symbol != k
    ensures Pos(copy, k) == p
  {
    if p > 0 {
      PosAt(copy[1..], k, p - 1);
    }
  }

  lemma ExampleGroup(lengths: seq<nat>, len: nat)
    requires lengths == [1, 2, 2]
    ensures OfLength(lengths, len, 0) == if len == 1 then [0] else if len == 2 then [1, 2] else []
  {
    assert OfLength(lengths, len, 3) == [];
    assert OfLength(lengths, len, 2) == if len == 2 then [2] else [];
    assert OfLength(lengths, len, 1) == if len == 2 then [1, 2] else [];
  }

  lemma ExampleOrder(lengths: seq<nat>)
    requires lengths == [1, 2, 2]
    ensures ByLength(lengths) == [0, 1, 2]
  {
    NoLongerGroups(lengths, 3);
    ExampleGroup(lengths, 2);
    ExampleGroup(lengths, 1);
    ExampleGroup(lengths, 0);
    assert Groups(lengths, 2) == [1, 2];
    assert Groups(lengths, 1) == [0, 1, 2];
  }

  /** The copy sorted by length for lengths 1, 2, 2. */
  predicate ExampleCopy(copy: seq<Entry>)
  {
    |copy| == 3 && copy[0] == Entry(1, 0) && copy[1] == Entry(2, 1) && copy[2] == Entry(2, 2)
  }

  lemma ExampleSort(lengths: seq<nat>)
    requires lengths == [1, 2, 2]
    ensures ExampleCopy(Sorted(lengths))
  {
    ExampleOrder(lengths);
  }

  lemma ExampleValues(copy: seq<Entry>)
    requires ExampleCopy(copy)
    ensures StepsFrom(copy, 1) == 32768 && StepsFrom(copy, 2) == 16384 && StepsFrom(copy, 3) == 0
  {
    assert Pow2(7) == 128;
    Pow2Add(7, 7);
    assert copy[2].length == 2 && copy[1].length == 2;
    assert Step(copy, 2) == Pow2(14);
    assert Step(copy, 1) == Pow2(14);
    assert StepsFrom(copy, 3) == 0;
    assert StepsFrom(copy, 2) == Step(copy, 2) + StepsFrom(copy, 3);
  }

  /** Two characters reversed. */
  lemma ReverseTwo(a: char, b: char)
    ensures Reverse([a, b]) == [b, a]
  {
    var r := Reverse([a, b]);
    assert r[0] == b && r[1] == a;
  }

  /** The binary digits of 0 and 1 on one and two places. */
  lemma SmallBits()
    ensures Bits(1, 1) == "1" && Bits(1, 2) == "01" && Bits(0, 2) == "00"
  {
    assert Bits(0, 1) == "0";
  }

  lemma ShapeOfTop(code: nat)
    requires code == 32768
    ensures Shape(code, 1) == "1"
  {
    assert Pow2(8) == 256;
    Pow2Add(8, 8);
    Pow2Add(1, 14);
    ShapeIsTopBits(code, 1);
    BitsPrefix(code, 16, 1);
    DivModUnique(code, Pow2(15), 1, 0);
    SmallBits();
    var r := Reverse("1");
    assert r[0] == '1';
  }

  lemma ShapeOfSecond(code: nat)
    requires code == 16384
    ensures Shape(code, 2) == "10"
  {
    assert Pow2(8) == 256;
    Pow2Add(8, 8);
    Pow2Add(2, 14);
    ShapeIsTopBits(code, 2);
    BitsPrefix(code, 16, 2);
    DivModUnique(code, Pow2(14), 1, 0);
    SmallBits();
    ReverseTwo('0', '1');
  }

  lemma ShapeOfZero(code: nat)
    requires code == 0
    ensures Shape(code, 2) == "00"
  {
    assert Pow2(8) == 256;
    Pow2Add(8, 8);
    ShapeIsTopBits(code, 2);
    BitsPrefix(code, 16, 2);
    SmallBits();
    ReverseTwo('0', '0');
  }

  lemma ExampleShapes(copy: seq<Entry>)
    requires ExampleCopy(copy)
    ensures Pos(copy, 0) == 0 && Pos(copy, 1) == 1 && Pos(copy, 2) == 2
    ensures Shape(StepsFrom(copy, 1), 1) == "1"
    ensures Shape(StepsFrom(copy, 2), 2) == "10"
    ensures Shape(StepsFrom(copy, 3), 2) == "00"
  {
    ExampleValues(copy);
    PosAt(copy, 0, 0);
    PosAt(copy, 1, 1);
    PosAt(copy, 2, 2);
    ShapeOfTop(StepsFrom(copy, 1));
    ShapeOfSecond(StepsFrom(copy, 2));
    ShapeOfZero(StepsFrom(copy, 3));
  }

  lemma ExampleCodes(copy: seq<Entry>)
    requires ExampleCopy(copy)
    ensures Fits(copy)
    ensures CodeIn(copy, 0, 1) == "1" && CodeIn(copy, 1, 2) == "10" && CodeIn(copy, 2, 2) == "00"
  {
    assert CodeIn(copy, 0, 1) == "1" by {
      ExampleShapes(copy);
      CodeAtOwnPosition(copy, 0, 1, "1");
    }
    assert CodeIn(copy, 1, 2) == "10" by {
      ExampleShapes(copy);
      CodeAtOwnPosition(copy, 1, 2, "10");
    }
    assert CodeIn(copy, 2, 2) == "00" by {
      ExampleShapes(copy);
      CodeAtOwnPosition(copy, 2, 2, "00");
    }
  }

  lemma CodeAtOwnPosition(copy: seq<Entry>, k: nat, length: nat, code: string)
    requires Fits(copy) && length <= 16
    requires Pos(copy, k) == k && Shape(StepsFrom(copy, k + 1), length) == code
    ensures CodeIn(copy, k, length) == code
  {
  }

  /** For the complete code with lengths 1, 2, 2 the reversal makes the code of symbol 0 a
      prefix of the code of symbol 1: the codes are not prefix-free. */
  lemma ReversedCodesCanClash(lengths: seq<nat>)
    requires lengths == [1, 2, 2]
    ensures |TheCodes(lengths)| == 3
    ensures TheCodes(lengths)[0] == "1" && TheCodes(lengths)[1] == "10" && TheCodes(lengths)[2] == "00"
    ensures IsPrefix(TheCodes(lengths)[0], TheCodes(lengths)[1])
  {
    ExampleSort(lengths);
    ExampleCodes(Sorted(lengths));
  }
}
