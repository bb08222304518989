/** `LZWDecompress` of `gif/gif.js`: variable-length LZW as GIF89a Appendix F describes it, with
    codes packed least significant bit first, a clear code 2^m and an end code 2^m + 1 for a
    minimum code size m, and code widths from m + 1 up to 12 bits.

    `Decode` states the decoder one loop turn at a time (`Step`); `LzwDecompress` is the loop
    itself, proved to return what `Decode` does. */
module GifLzw {
  import opened Bytes

  const MAX_CODE_WIDTH: nat := 12

  /** A code table slot: a string of palette indices, or one of the two slots the clear and end
      codes occupy (the source stores the bare numbers there). */
  datatype Slot = Symbols(s: seq<nat>) | Control

  /** The decoder's variables between two turns of its loop. `pos` is how far the byte
      iterator has got, `exhausted` whether it has reported `done`, `rest` holds the
      `restBits` bits read but not yet used (the count goes negative once the iterator has
      run dry and a code was cut short), `width` is `nbOfBitsForCode`. */
  datatype Decoder = Decoder(
    pos: nat, exhausted: bool, rest: nat, restBits: int, width: nat,
    table: seq<Slot>, conjecture: seq<nat>, output: seq<nat>)

  /** What `fillBits` leaves behind, and whether it ran out of bytes. */
  datatype Filled = Filled(pos: nat, rest: nat, restBits: int, mustStop: bool)

  predicate Below(xs: seq<nat>, bound: nat)
  {
    forall k :: 0 <= k < |xs| ==> xs[k] < bound
  }

  /** `buildCodeTable()`: a singleton for each of the 2^m palette indices, then the two
      control slots. */
  function InitialTable(m: nat): (t: seq<Slot>)
    ensures |t| == Pow2(m) + 2
    ensures forall i :: 0 <= i < Pow2(m) ==> t[i] == Symbols([i])
    ensures t[Pow2(m)] == Control && t[Pow2(m) + 1] == Control
  {
    seq(Pow2(m), i requires 0 <= i => Symbols([i as nat])) + [Control, Control]
  }

  function Start(m: nat): Decoder
  {
    Decoder(0, false, 0, 0, m + 1, InitialTable(m), [], [])
  }

  /** The table slots a code may name: every slot but the two control slots holds a
      non-empty string. */
  predicate Coded(m: nat, table: seq<Slot>)
  {
    forall i :: 0 <= i < |table| && i != Pow2(m) && i != Pow2(m) + 1 ==> table[i].Symbols? && table[i].s != []
  }

  /** What a turn of the loop needs: the iterator within the bytes and done once it has
      said so, a negative bit count only after that, a width from m + 1 to 12, and a string
      behind every code that is not a control code. */
  predicate Runs(b: seq<byte>, m: nat, s: Decoder)
  {
    && s.pos <= |b|
    && (s.exhausted ==> s.pos == |b|)
    && (s.restBits < 0 ==> s.exhausted)
    && m + 1 <= s.width <= MAX_CODE_WIDTH
    && Coded(m, s.table)
  }

  /** What the loop keeps besides: the singletons and the control slots where
      `buildCodeTable` put them, and every table string, the previous string and the output
      made of palette indices. */
  predicate Wf(b: seq<byte>, m: nat, s: Decoder)
  {
    && Runs(b, m, s)
    && |s.table| >= Pow2(m) + 2
    && (forall i :: 0 <= i < Pow2(m) ==> s.table[i] == Symbols([i]))
    && s.table[Pow2(m)] == Control && s.table[Pow2(m) + 1] == Control
    && (forall i :: 0 <= i < |s.table| && s.table[i].Symbols? ==> Below(s.table[i].s, Pow2(m)))
    && Below(s.conjecture, Pow2(m))
    && Below(s.output, Pow2(m))
  }

  /** `fillBits()`: bytes go in above the bits already held, least significant first, until
      there are `width` bits or the iterator is done; a done iterator still adds 8 (zero)
      bits and stops the decoder after this code. */
  function Fill(b: seq<byte>, pos: nat, rest: nat, restBits: int, width: nat): (f: Filled)
    requires pos <= |b| && (restBits < 0 ==> pos == |b|)
    ensures pos <= f.pos <= |b|
    ensures f.mustStop <==> restBits + 8 * (|b| - pos) < width
    ensures f.mustStop ==> f.pos == |b| && f.restBits == restBits + 8 * (f.pos - pos) + 8
    ensures !f.mustStop ==> f.restBits == restBits + 8 * (f.pos - pos) && width <= f.restBits
    ensures restBits < width ==> f.restBits < width + 8
    ensures restBits >= width ==> f == Filled(pos, rest, restBits, false)
    ensures restBits < 0 ==> f.rest == rest
    decreases |b| - pos
  {
    if restBits >= width then Filled(pos, rest, restBits, false)
    else if pos == |b| then Filled(pos, rest, restBits + 8, true)
    else Fill(b, pos + 1, rest + b[pos] * Pow2(restBits), restBits + 8, width)
  }

  lemma ShiftByte(rest: int, x: int, high: int, p: int)
    ensures rest + x * p + high * (p * 256) == rest + (x + 256 * high) * p
  {
  }

  /** The bytes `Fill` takes go in least significant first, above the bits already held. */
  lemma {:induction false} FillIsLsbFirst(b: seq<byte>, pos: nat, rest: nat, restBits: int, width: nat)
    requires pos <= |b| && 0 <= restBits
    ensures var f := Fill(b, pos, rest, restBits, width);
      f.rest == rest + LeUint(b[pos..f.pos]) * Pow2(restBits)
    decreases |b| - pos
  {
    var f := Fill(b, pos, rest, restBits, width);
    if restBits < width && pos < |b| {
      var r' := rest + b[pos] * Pow2(restBits);
      FillIsLsbFirst(b, pos + 1, r', restBits + 8, width);
      assert f == Fill(b, pos + 1, r', restBits + 8, width);
      assert b[pos..f.pos][1..] == b[pos + 1..f.pos];
      assert LeUint(b[pos..f.pos]) == b[pos] + 256 * LeUint(b[pos + 1..f.pos]);
      Pow2Add(restBits, 8);
      assert Pow2(8) == 256;
      assert Pow2(restBits + 8) == Pow2(restBits) * 256;
      ShiftByte(rest, b[pos], LeUint(b[pos + 1..f.pos]), Pow2(restBits));
    } else {
      assert b[pos..f.pos] == [];
    }
  }

  /** Division by a positive number does not grow a natural number, and division by 2 or
      more shrinks a positive one. */
  lemma DivShrinks(x: nat, d: nat)
    requires d >= 1
    ensures x / d <= x
    ensures d >= 2 && x > 0 ==> x / d < x
    ensures x == 0 ==> x % d == 0
  {
    var q, r := x / d, x % d;
    assert x == q * d + r && 0 <= r;
    MulAtLeast(q, d);
  }

  lemma MulAtLeast(q: nat, d: nat)
    requires d >= 1
    ensures q * d >= q
    ensures d >= 2 ==> q * d >= 2 * q
  {
    assert q * d == q + q * (d - 1);
    if d >= 2 {
      assert q * (d - 1) == q + q * (d - 2);
    }
  }

  /** `rest & codeMask` for a mask of `w` one bits: the low `w` bits. */
  function LowBits(x: nat, w: nat): (c: nat)
    ensures c < Pow2(w)
    ensures x == 0 ==> c == 0
  {
    DivShrinks(x, Pow2(w));
    x % Pow2(w)
  }

  /** `rest >>= w`: what remains above the low `w` bits. */
  function HighBits(x: nat, w: nat): (r: nat)
    ensures r <= x
    ensures w >= 1 && x > 0 ==> r < x
  {
    assert w >= 1 ==> Pow2(w) >= 2 by {
      if w >= 1 {
        Pow2Monotone(1, w);
      }
    }
    DivShrinks(x, Pow2(w));
    x / Pow2(w)
  }

  /** The string a non-control code stands for, and the table once the previous string
      followed by that string's first symbol has been appended to it. A code one past the
      table stands for the previous string followed by its own first symbol. */
  function Extend(table: seq<Slot>, conjecture: seq<nat>, code: nat): (r: Result<(seq<Slot>, seq<nat>)>)
    requires code < |table| ==> table[code].Symbols? && table[code].s != []
    ensures r.Err? <==> code >= |table| && conjecture == []
    ensures r.Ok? ==> r.value.1 != []
  {
    if code >= |table| && conjecture == [] then Err(UndefinedCode)
    else
      var current := if code < |table| then table[code].s else conjecture + [conjecture[0]];
      var table' := if conjecture != [] then table + [Symbols(conjecture + [current[0]])] else table;
      Ok((table', current))
  }

  /** The code width after a table has reached `size` entries. */
  function Widen(width: nat, size: nat): nat
  {
    if width < MAX_CODE_WIDTH && size == Pow2(width) then width + 1 else width
  }

  /** What the loop does with the bits `fillBits` left: it takes the next code off them and
      applies it to the table, the previous string and the output. The boolean is true when
      the loop ends after this turn. */
  function Apply(m: nat, s: Decoder, f: Filled): Result<(Decoder, bool)>
    requires Coded(m, s.table)
  {
    var code := LowBits(f.rest, s.width);
    var rest := HighBits(f.rest, s.width);
    var restBits := f.restBits - s.width;
    var exhausted := s.exhausted || f.mustStop;
    if code == Pow2(m) then
      // the clear code: back to the initial table and width, and on even if the bytes ran out
      Ok((Decoder(f.pos, exhausted, rest, restBits, m + 1, InitialTable(m), [], s.output), false))
    else if code == Pow2(m) + 1 then
      Ok((Decoder(f.pos, exhausted, rest, restBits, s.width, s.table, s.conjecture, s.output), true))
    else
      var e :- Extend(s.table, s.conjecture, code);
      var (table, current) := e;
      Ok((Decoder(f.pos, exhausted, rest, restBits, Widen(s.width, |table|), table, current, s.output + current), f.mustStop))
  }

  /** One turn of the loop: `fillBits()`, then the next code. */
  function Step(b: seq<byte>, m: nat, s: Decoder): Result<(Decoder, bool)>
    requires Runs(b, m, s)
  {
    Apply(m, s, Fill(b, s.pos, s.rest, s.restBits, s.width))
  }

  /** `Apply` on a control code, in the terms the loop computes. */
  lemma ApplyControl(m: nat, s: Decoder, f: Filled)
    requires Coded(m, s.table)
    ensures var (code, rest, restBits) := (LowBits(f.rest, s.width), HighBits(f.rest, s.width), f.restBits - s.width);
      && (code == Pow2(m) ==>
            Apply(m, s, f) == Ok((Decoder(f.pos, s.exhausted || f.mustStop, rest, restBits, m + 1, InitialTable(m), [], s.output), false)))
      && (code == Pow2(m) + 1 ==>
            Apply(m, s, f) == Ok((Decoder(f.pos, s.exhausted || f.mustStop, rest, restBits, s.width, s.table, s.conjecture, s.output), true)))
  {
  }

  /** `Apply` on any other code, in the terms the loop computes. */
  lemma ApplyString(m: nat, s: Decoder, f: Filled)
    requires Coded(m, s.table)
    requires LowBits(f.rest, s.width) != Pow2(m) && LowBits(f.rest, s.width) != Pow2(m) + 1
    ensures var e := Extend(s.table, s.conjecture, LowBits(f.rest, s.width));
      && (e.Err? ==> Apply(m, s, f) == Err(e.error))
      && (e.Ok? ==>
            Apply(m, s, f) == Ok((Decoder(f.pos, s.exhausted || f.mustStop, HighBits(f.rest, s.width), f.restBits - s.width,
                           Widen(s.width, |e.value.0|), e.value.0, e.value.1, s.output + e.value.1), f.mustStop)))
  {
  }

  /** A turn keeps what the next turn needs. */
  lemma StepKeepsRuns(b: seq<byte>, m: nat, s: Decoder)
    requires Runs(b, m, s) && Step(b, m, s).Ok?
    ensures Runs(b, m, Step(b, m, s).value.0)
  {
    var f := Fill(b, s.pos, s.rest, s.restBits, s.width);
    var code := LowBits(f.rest, s.width);
    assert Step(b, m, s) == Apply(m, s, f);
    ApplyControl(m, s, f);
    var t := Step(b, m, s).value.0;
    if code == Pow2(m) {
      assert Coded(m, InitialTable(m));
    } else if code != Pow2(m) + 1 {
      ApplyString(m, s, f);
      assert t.table == s.table || t.table == s.table + [Symbols(s.conjecture + [t.conjecture[0]])];
      assert t.table[..|s.table|] == s.table;
    }
  }

  function Rank1(s: Decoder): nat
  {
    if s.exhausted then 0 else 1
  }

  function Rank2(b: seq<byte>, s: Decoder): nat
  {
    if s.exhausted || s.restBits < 0 || s.pos > |b| then 0 else 8 * (|b| - s.pos) + s.restBits
  }

  function Rank4(s: Decoder): nat
  {
    if s.restBits < 0 then 0 else s.restBits
  }

  /** A turn after which the loop goes on brings the decoder closer to its end: the bits
      still to read shrink by a code width, or the iterator becomes done, or, once it is done,
      the bits held shrink. */
  lemma StepDecreases(b: seq<byte>, m: nat, s: Decoder)
    requires Runs(b, m, s) && Step(b, m, s).Ok? && !Step(b, m, s).value.1
    ensures var t := Step(b, m, s).value.0;
      || Rank1(t) < Rank1(s)
      || (Rank1(t) == Rank1(s) && Rank2(b, t) < Rank2(b, s))
      || (Rank1(t) == Rank1(s) && Rank2(b, t) == Rank2(b, s) && t.rest < s.rest)
      || (Rank1(t) == Rank1(s) && Rank2(b, t) == Rank2(b, s) && t.rest == s.rest && Rank4(t) < Rank4(s))
  {
    var f := Fill(b, s.pos, s.rest, s.restBits, s.width);
    var code := LowBits(f.rest, s.width);
    assert Step(b, m, s) == Apply(m, s, f);
    ApplyControl(m, s, f);
    if code != Pow2(m) && code != Pow2(m) + 1 {
      ApplyString(m, s, f);
    }
    var t := Step(b, m, s).value.0;
    assert t.rest == HighBits(f.rest, s.width) && t.restBits == f.restBits - s.width;
    assert t.exhausted == (s.exhausted || f.mustStop) && t.pos == f.pos;
    if s.exhausted {
      if s.restBits < s.width {
        // the bytes ran out: only the clear code goes on, and it is not zero
        assert f.mustStop && f.rest == s.rest;
        assert code == Pow2(m);
        assert f.rest > 0;
      } else {
        assert f == Filled(s.pos, s.rest, s.restBits, false);
      }
    } else if !f.mustStop {
      assert Rank2(b, t) == Rank2(b, s) - s.width;
    }
  }

  /** The decoder run from state `s` to its end code, or until the bytes run out. */
  function Decode(b: seq<byte>, m: nat, s: Decoder): (r: Result<seq<nat>>)
    requires m < MAX_CODE_WIDTH && Runs(b, m, s)
    ensures r.Ok? ==> s.output <= r.value
    decreases Rank1(s), Rank2(b, s), s.rest, Rank4(s)
  {
    var step := Step(b, m, s);
    if step.Err? then Err(step.error)
    else
      StepKeepsRuns(b, m, s);
      var t := step.value.0;
      if step.value.1 then Ok(t.output)
      else
        StepDecreases(b, m, s);
        Decode(b, m, t)
  }

  /** `Decode` after one turn: the turn's failure, the output when the turn ends the loop,
      or the rest of the run from the turn's new state. */
  lemma DecodeUnfolds(b: seq<byte>, m: nat, s: Decoder)
    requires m < MAX_CODE_WIDTH && Runs(b, m, s)
    ensures Step(b, m, s).Err? ==> Decode(b, m, s) == Err(Step(b, m, s).error)
    ensures Step(b, m, s).Ok? ==> Runs(b, m, Step(b, m, s).value.0)
    ensures Step(b, m, s).Ok? && Step(b, m, s).value.1 ==> Decode(b, m, s) == Ok(Step(b, m, s).value.0.output)
    ensures Step(b, m, s).Ok? && !Step(b, m, s).value.1 ==> Decode(b, m, s) == Decode(b, m, Step(b, m, s).value.0)
  {
    if Step(b, m, s).Ok? {
      StepKeepsRuns(b, m, s);
    }
  }

  /** The decoder's starting state is well formed. */
  lemma StartIsWf(b: seq<byte>, m: nat)
    requires m < MAX_CODE_WIDTH
    ensures Wf(b, m, Start(m))
  {
  }

  /** Extending a table of palette-index strings with a previous string of palette indices
      yields palette-index strings only. */
  lemma ExtendKeepsBelow(table: seq<Slot>, conjecture: seq<nat>, code: nat, bound: nat)
    requires code < |table| ==> table[code].Symbols? && table[code].s != []
    requires forall i :: 0 <= i < |table| && table[i].Symbols? ==> Below(table[i].s, bound)
    requires Below(conjecture, bound)
    ensures var e := Extend(table, conjecture, code);
      e.Ok? ==>
        && Below(e.value.1, bound)
        && |e.value.0| >= |table|
        && e.value.0[..|table|] == table
        && (forall i :: 0 <= i < |e.value.0| && e.value.0[i].Symbols? ==> Below(e.value.0[i].s, bound))
  {
    var e := Extend(table, conjecture, code);
    if e.Ok? {
      var current := e.value.1;
      if code < |table| {
        assert current == table[code].s;
      }
      if conjecture != [] {
        var entry := conjecture + [current[0]];
        assert e.value.0 == table + [Symbols(entry)];
        assert Below(entry, bound);
        forall i | 0 <= i < |e.value.0| && e.value.0[i].Symbols?
          ensures Below(e.value.0[i].s, bound)
        {
          if i < |table| {
            assert e.value.0[i] == table[i];
          }
        }
      }
    }
  }

  /** A turn keeps the loop's state well formed: the singletons and the control slots stay
      where `buildCodeTable` put them, and every table string, the previous string and the
      output stay made of palette indices. */
  lemma StepKeepsWf(b: seq<byte>, m: nat, s: Decoder)
    requires m < MAX_CODE_WIDTH && Wf(b, m, s) && Step(b, m, s).Ok?
    ensures Wf(b, m, Step(b, m, s).value.0)
  {
    StepKeepsRuns(b, m, s);
    var f := Fill(b, s.pos, s.rest, s.restBits, s.width);
    var code := LowBits(f.rest, s.width);
    assert Step(b, m, s) == Apply(m, s, f);
    ApplyControl(m, s, f);
    if code != Pow2(m) && code != Pow2(m) + 1 {
      ApplyString(m, s, f);
      ExtendKeepsBelow(s.table, s.conjecture, code, Pow2(m));
      var t := Step(b, m, s).value.0;
      assert t.output == s.output + t.conjecture;
      assert forall i :: 0 <= i < |s.table| ==> t.table[i] == s.table[i];
    }
  }

  /** Every symbol the decoder outputs is a palette index below 2^m. */
  lemma {:induction false} DecodeIsBelow(b: seq<byte>, m: nat, s: Decoder)
    requires m < MAX_CODE_WIDTH && Wf(b, m, s)
    ensures Decode(b, m, s).Ok? ==> Below(Decode(b, m, s).value, Pow2(m))
    decreases Rank1(s), Rank2(b, s), s.rest, Rank4(s)
  {
    DecodeUnfolds(b, m, s);
    if Step(b, m, s).Ok? {
      StepKeepsWf(b, m, s);
      if !Step(b, m, s).value.1 {
        StepDecreases(b, m, s);
        DecodeIsBelow(b, m, Step(b, m, s).value.0);
      }
    }
  }

  /** `LZWDecompress(buffer, m)` for a minimum code size of at most 11, so that codes stay
      within 12 bits. Every index it yields is below 2^m. */
  function LzwDecode(b: seq<byte>, m: nat): (r: Result<seq<nat>>)
    requires m < MAX_CODE_WIDTH
    ensures r.Ok? ==> Below(r.value, Pow2(m))
  {
    StartIsWf(b, m);
    DecodeIsBelow(b, m, Start(m));
    Decode(b, m, Start(m))
  }

  /** A code other than the control codes yields a non-empty string: the table entry it
      names, or, for the code one past the table, the previous string followed by its own
      first symbol; the output grows by that string; and the table grows by the previous
      string followed by the first symbol of the new one, unless there was no previous
      string. */
  lemma StepAddsEntry(b: seq<byte>, m: nat, s: Decoder)
    requires m < MAX_CODE_WIDTH && Runs(b, m, s) && Step(b, m, s).Ok?
    ensures var t := Step(b, m, s).value.0;
      var code := LowBits(Fill(b, s.pos, s.rest, s.restBits, s.width).rest, s.width);
      code != Pow2(m) && code != Pow2(m) + 1 ==>
        && t.conjecture != []
        && t.output == s.output + t.conjecture
        && (code < |s.table| ==> Symbols(t.conjecture) == s.table[code])
        && (code >= |s.table| ==> t.conjecture == s.conjecture + [s.conjecture[0]])
        && (s.conjecture == [] ==> t.table == s.table)
        && (s.conjecture != [] ==> t.table == s.table + [Symbols(s.conjecture + [t.conjecture[0]])])
  {
    var f := Fill(b, s.pos, s.rest, s.restBits, s.width);
    var code := LowBits(f.rest, s.width);
    assert Step(b, m, s) == Apply(m, s, f);
    if code != Pow2(m) && code != Pow2(m) + 1 {
      ApplyString(m, s, f);
    }
  }

  /** The clear code restores the initial table, width and empty previous string; the end
      code stops the decoder; the width grows by one exactly when the table has filled the
      current width and the width is below 12. */
  lemma StepControlAndWidth(b: seq<byte>, m: nat, s: Decoder)
    requires m < MAX_CODE_WIDTH && Runs(b, m, s) && Step(b, m, s).Ok?
    ensures var t := Step(b, m, s).value.0;
      var code := LowBits(Fill(b, s.pos, s.rest, s.restBits, s.width).rest, s.width);
      && (code == Pow2(m) ==>
            t.table == InitialTable(m) && t.width == m + 1 && t.conjecture == [] && !Step(b, m, s).value.1)
      && (code == Pow2(m) + 1 ==> Step(b, m, s).value.1 && t.output == s.output)
      && (code != Pow2(m) && code != Pow2(m) + 1 ==>
            (t.width == s.width + 1 <==> s.width < MAX_CODE_WIDTH && |t.table| == Pow2(s.width))
            && (t.width != s.width + 1 ==> t.width == s.width))
  {
    var f := Fill(b, s.pos, s.rest, s.restBits, s.width);
    var code := LowBits(f.rest, s.width);
    assert Step(b, m, s) == Apply(m, s, f);
    ApplyControl(m, s, f);
    if code != Pow2(m) && code != Pow2(m) + 1 {
      ApplyString(m, s, f);
    }
  }

  /** The next code is the low `width` bits of what is held, and the bytes it was filled from
      are taken least significant first, above the bits already held. */
  lemma CodesAreLsbFirst(b: seq<byte>, m: nat, s: Decoder)
    requires m < MAX_CODE_WIDTH && Runs(b, m, s) && s.restBits >= 0 && !s.exhausted
    ensures var f := Fill(b, s.pos, s.rest, s.restBits, s.width);
      f.rest == s.rest + LeUint(b[s.pos..f.pos]) * Pow2(s.restBits)
  {
    FillIsLsbFirst(b, s.pos, s.rest, s.restBits, s.width);
  }

  /** The example's bytes: a clear code, two zeros, a one in 3 bits, a one and the end
      code in 4 bits. */
  const EXAMPLE: seq<byte> := [4, 18, 5]

  /** The decoder's states on `EXAMPLE` with a minimum code size of 2, after each code. */
  const AFTER_CLEAR: Decoder := Decoder(1, false, 0, 5, 3, InitialTable(2), [], [])
  const AFTER_ZERO: Decoder := Decoder(1, false, 0, 2, 3, InitialTable(2), [0], [0])
  const AFTER_ZERO_ZERO: Decoder := Decoder(2, false, 9, 7, 3, InitialTable(2) + [Symbols([0, 0])], [0], [0, 0])
  const AFTER_ONE: Decoder :=
    Decoder(2, false, 1, 4, 4, InitialTable(2) + [Symbols([0, 0]), Symbols([0, 1])], [1], [0, 0, 1])
  const AFTER_ONE_ONE: Decoder :=
    Decoder(2, false, 0, 0, 4, InitialTable(2) + [Symbols([0, 0]), Symbols([0, 1]), Symbols([1, 1])], [1], [0, 0, 1, 1])

  /** A turn that goes on, as the run sees it. */
  lemma TurnGoesOn(b: seq<byte>, m: nat, s: Decoder, t: Decoder)
    requires m < MAX_CODE_WIDTH && Runs(b, m, s) && Step(b, m, s) == Ok((t, false))
    ensures Runs(b, m, t) && Decode(b, m, s) == Decode(b, m, t)
  {
    DecodeUnfolds(b, m, s);
  }

  lemma ExampleFills()
    ensures Fill(EXAMPLE, 0, 0, 0, 3) == Filled(1, 4, 8, false)
    ensures Fill(EXAMPLE, 1, 0, 5, 3) == Filled(1, 0, 5, false)
    ensures Fill(EXAMPLE, 1, 0, 2, 3) == Filled(2, 72, 10, false)
    ensures Fill(EXAMPLE, 2, 9, 7, 3) == Filled(2, 9, 7, false)
    ensures Fill(EXAMPLE, 2, 1, 4, 4) == Filled(2, 1, 4, false)
    ensures Fill(EXAMPLE, 2, 0, 0, 4) == Filled(3, 5, 8, false)
  {
    assert Pow2(0) == 1 && Pow2(2) == 4 && Pow2(8) == 256;
  }

  lemma ExampleCodes()
    ensures LowBits(4, 3) == 4 && HighBits(4, 3) == 0
    ensures LowBits(0, 3) == 0 && HighBits(0, 3) == 0
    ensures LowBits(72, 3) == 0 && HighBits(72, 3) == 9
    ensures LowBits(9, 3) == 1 && HighBits(9, 3) == 1
    ensures LowBits(1, 4) == 1 && HighBits(1, 4) == 0
    ensures LowBits(5, 4) == 5
  {
    assert Pow2(3) == 8 && Pow2(4) == 16;
  }

  lemma ExampleClear()
    requires Coded(2, InitialTable(2))
    ensures Apply(2, Start(2), Filled(1, 4, 8, false)) == Ok((AFTER_CLEAR, false))
  {
    ExampleCodes();
    assert Pow2(2) == 4;
  }

  lemma ExampleFirstZero()
    requires Coded(2, AFTER_CLEAR.table)
    ensures Apply(2, AFTER_CLEAR, Filled(1, 0, 5, false)) == Ok((AFTER_ZERO, false))
  {
    ExampleCodes();
    assert Pow2(2) == 4 && Pow2(3) == 8;
    assert AFTER_CLEAR.table[0] == Symbols([0]);
    assert Extend(AFTER_CLEAR.table, [], 0) == Ok((AFTER_CLEAR.table, [0]));
    assert [] + [0] == [0];
  }

  lemma ExampleSecondZero()
    requires Coded(2, AFTER_ZERO.table)
    ensures Apply(2, AFTER_ZERO, Filled(2, 72, 10, false)) == Ok((AFTER_ZERO_ZERO, false))
  {
    ExampleCodes();
    assert Pow2(2) == 4 && Pow2(3) == 8;
    assert AFTER_ZERO.table[0] == Symbols([0]) && [0] + [0] == [0, 0];
    assert Extend(AFTER_ZERO.table, [0], 0) == Ok((AFTER_ZERO_ZERO.table, [0]));
  }

  /** The table reaches 8 entries here, and the width grows to 4 bits. */
  lemma ExampleFirstOne()
    requires Coded(2, AFTER_ZERO_ZERO.table)
    ensures Apply(2, AFTER_ZERO_ZERO, Filled(2, 9, 7, false)) == Ok((AFTER_ONE, false))
  {
    ExampleCodes();
    assert Pow2(2) == 4 && Pow2(3) == 8;
    assert AFTER_ZERO_ZERO.table[1] == Symbols([1]);
    assert [0] + [1] == [0, 1] && [0, 0] + [1] == [0, 0, 1];
    assert AFTER_ZERO_ZERO.table + [Symbols([0, 1])] == AFTER_ONE.table;
    assert Extend(AFTER_ZERO_ZERO.table, [0], 1) == Ok((AFTER_ONE.table, [1]));
    assert Widen(3, 8) == 4;
  }

  lemma ExampleSecondOne()
    requires Coded(2, AFTER_ONE.table)
    ensures Apply(2, AFTER_ONE, Filled(2, 1, 4, false)) == Ok((AFTER_ONE_ONE, false))
  {
    ExampleCodes();
    assert Pow2(2) == 4 && Pow2(4) == 16;
    assert AFTER_ONE.table[1] == Symbols([1]);
    assert [1] + [1] == [1, 1] && [0, 0, 1] + [1] == [0, 0, 1, 1];
    assert AFTER_ONE.table + [Symbols([1, 1])] == AFTER_ONE_ONE.table;
    assert Extend(AFTER_ONE.table, [1], 1) == Ok((AFTER_ONE_ONE.table, [1]));
    assert Widen(4, 9) == 4;
  }

  lemma ExampleEnd()
    requires Coded(2, AFTER_ONE_ONE.table)
    ensures Apply(2, AFTER_ONE_ONE, Filled(3, 5, 8, false)).Ok?
    ensures Apply(2, AFTER_ONE_ONE, Filled(3, 5, 8, false)).value.1
    ensures Apply(2, AFTER_ONE_ONE, Filled(3, 5, 8, false)).value.0.output == [0, 0, 1, 1]
  {
    ExampleCodes();
    assert Pow2(2) == 4;
  }

  /** The decoder on `EXAMPLE` with a minimum code size of 2 yields the palette indices
      0, 0, 1, 1, and takes the table to 9 entries and the width to 4 bits on the way. */
  lemma {:induction false} DecodeExample()
    ensures LzwDecode(EXAMPLE, 2) == Ok([0, 0, 1, 1])
  {
    StartIsWf(EXAMPLE, 2);
    ExampleFills();
    ExampleClear();
    TurnGoesOn(EXAMPLE, 2, Start(2), AFTER_CLEAR);
    ExampleFirstZero();
    TurnGoesOn(EXAMPLE, 2, AFTER_CLEAR, AFTER_ZERO);
    ExampleSecondZero();
    TurnGoesOn(EXAMPLE, 2, AFTER_ZERO, AFTER_ZERO_ZERO);
    ExampleFirstOne();
    TurnGoesOn(EXAMPLE, 2, AFTER_ZERO_ZERO, AFTER_ONE);
    ExampleSecondOne();
    TurnGoesOn(EXAMPLE, 2, AFTER_ONE, AFTER_ONE_ONE);
    ExampleEnd();
    DecodeUnfolds(EXAMPLE, 2, AFTER_ONE_ONE);
  }

  /** `fillBits()`: the nested function updates the decoder's variables in place; here it
      takes them and returns their new values. */
  method FillBits(buffer: seq<byte>, pos0: nat, rest0: nat, restBits0: int, width: nat)
    returns (pos: nat, rest: nat, restBits: int, mustStop: bool)
    requires pos0 <= |buffer| && (restBits0 < 0 ==> pos0 == |buffer|)
    ensures Filled(pos, rest, restBits, mustStop) == Fill(buffer, pos0, rest0, restBits0, width)
  {
    pos, rest, restBits, mustStop := pos0, rest0, restBits0, false;
    while restBits < width
      invariant pos <= |buffer| && (restBits < 0 ==> pos == |buffer|)
      invariant Fill(buffer, pos, rest, restBits, width) == Fill(buffer, pos0, rest0, restBits0, width)
      decreases |buffer| - pos
    {
      if pos == |buffer| {
        // the iterator is done: its undefined value shifts in as zero bits
        restBits := restBits + 8;
        mustStop := true;
        return;
      }
      rest := rest + buffer[pos] * Pow2(restBits);
      restBits := restBits + 8;
      pos := pos + 1;
    }
  }

  /** The part of the loop of `LZWDecompress` that handles a code other than the two control
      codes: the lookup, the table push, the output, and the width growth once the table has
      filled the current width. */
  method AddString(codeTable: seq<Slot>, conjecture: seq<nat>, output: seq<nat>, nbOfBitsForCode: nat, code: nat)
    returns (r: Result<(seq<Slot>, seq<nat>, seq<nat>, nat)>)
    requires code < |codeTable| ==> codeTable[code].Symbols? && codeTable[code].s != []
    ensures var e := Extend(codeTable, conjecture, code);
      && (e.Err? ==> r == Err(e.error))
      && (e.Ok? ==> r == Ok((e.value.0, e.value.1, output + e.value.1, Widen(nbOfBitsForCode, |e.value.0|))))
  {
    var table := codeTable;
    var current: seq<nat>;
    if code < |codeTable| {
      current := codeTable[code].s;
      var newChar := conjecture + [current[0]];
      if |conjecture| > 0 {
        table := table + [Symbols(newChar)];
      }
    } else {
      if conjecture == [] {
        return Err(UndefinedCode);
      }
      var newChar := conjecture + [conjecture[0]];
      if |conjecture| > 0 {
        table := table + [Symbols(newChar)];
      }
      current := newChar;
    }
    var width := nbOfBitsForCode;
    if width < MAX_CODE_WIDTH && |table| == Pow2(width) {
      width := width + 1;
    }
    return Ok((table, current, output + current, width));
  }

  /** One turn of the loop of `LZWDecompress`, from `fillBits()` to the width growth, on the
      loop's variables as `s` holds them. The flag is true where the loop leaves: after the
      end code, or after a code the bytes ran out on. */
  method Turn(buffer: seq<byte>, m: nat, s: Decoder, codeMask: nat) returns (r: Result<(Decoder, bool)>, mask: nat)
    requires m < MAX_CODE_WIDTH && Runs(buffer, m, s) && codeMask == Pow2(s.width) - 1
    ensures r == Step(buffer, m, s)
    ensures r.Ok? ==> mask == Pow2(r.value.0.width) - 1
  {
    var pos, rest, nbOfBitsForRest, mustStop := FillBits(buffer, s.pos, s.rest, s.restBits, s.width);
    r, mask := TakeCode(m, s, Filled(pos, rest, nbOfBitsForRest, mustStop), codeMask);
  }

  /** The rest of a turn once `fillBits()` has left `f`: the code is cut off the bits held
      with `codeMask`, and the clear code, the end code or a string code is applied. */
  method TakeCode(m: nat, s: Decoder, f: Filled, codeMask: nat) returns (r: Result<(Decoder, bool)>, mask: nat)
    requires m < MAX_CODE_WIDTH && Coded(m, s.table) && codeMask == Pow2(s.width) - 1
    ensures r == Apply(m, s, f)
    ensures r.Ok? ==> mask == Pow2(r.value.0.width) - 1
  {
    var clearCode := Pow2(m);
    var endOfInformationCode := clearCode + 1;
    var nbOfBitsForCode := s.width;
    var codeTable, conjecture, output := s.table, s.conjecture, s.output;
    var exhausted := s.exhausted || f.mustStop;
    mask := codeMask;

    var code := f.rest % (mask + 1);
    var rest := f.rest / Pow2(nbOfBitsForCode);
    var nbOfBitsForRest := f.restBits - nbOfBitsForCode;

    if code == clearCode {
      mask := Pow2(m + 1) - 1;
      codeTable := InitialTable(m);
      conjecture := [];
      nbOfBitsForCode := m + 1;
      ApplyControl(m, s, f);
      return Ok((Decoder(f.pos, exhausted, rest, nbOfBitsForRest, nbOfBitsForCode, codeTable, conjecture, output), false)), mask;
    }
    if code == endOfInformationCode {
      ApplyControl(m, s, f);
      return Ok((Decoder(f.pos, exhausted, rest, nbOfBitsForRest, nbOfBitsForCode, codeTable, conjecture, output), true)), mask;
    }

    ApplyString(m, s, f);
    var next := AddString(codeTable, conjecture, output, nbOfBitsForCode, code);
    if next.Err? {
      return Err(next.error), mask;
    }
    codeTable, conjecture, output := next.value.0, next.value.1, next.value.2;
    if next.value.3 != nbOfBitsForCode {
      nbOfBitsForCode := next.value.3;
      mask := Pow2(nbOfBitsForCode) - 1;
    }
    return Ok((Decoder(f.pos, exhausted, rest, nbOfBitsForRest, nbOfBitsForCode, codeTable, conjecture, output), f.mustStop)), mask;
  }

  /** `LZWDecompress`: its loop, turn by turn, until the end code or the end of the bytes. */
  method LzwDecompress(buffer: seq<byte>, minimumCodeSize: nat) returns (r: Result<seq<nat>>)
    requires minimumCodeSize < MAX_CODE_WIDTH
    ensures r == LzwDecode(buffer, minimumCodeSize)
  {
    var m := minimumCodeSize;
    var state := Start(m);
    var codeMask := Pow2(m + 1) - 1;
    StartIsWf(buffer, m);
    while true
      invariant Runs(buffer, m, state)
      invariant codeMask == Pow2(state.width) - 1
      invariant LzwDecode(buffer, m) == Decode(buffer, m, state)
      decreases Rank1(state), Rank2(buffer, state), state.rest, Rank4(state)
    {
      DecodeUnfolds(buffer, m, state);
      var turn;
      turn, codeMask := Turn(buffer, m, state, codeMask);
      if turn.Err? {
        return Err(turn.error);
      }
      if turn.value.1 {
        return Ok(turn.value.0.output);
      }
      StepDecreases(buffer, m, state);
      state := turn.value.0;
    }
  }
}
