/** The byte cursor of `Reader.js`: a read-only buffer, a private offset that `read` and `rewind`
    move, and a lazily created generator that yields single bytes and, once it has found the
    offset at the end of the buffer, is finished for good. */
module ByteReader {
  import opened Bytes
  import Text

  /** What `read(n)` hands back: a bare byte when n <= 1, an array of n bytes when n > 1, and
      `undefined` when the generator yields from a negative offset (only a `rewind` past the
      start of the buffer leads there). */
  datatype Got = One(b: byte) | Many(s: seq<byte>) | Undefined

  /** A value read from a buffer and the offset just past it. */
  datatype Parsed<T> = Parsed(value: T, end: nat)

  /** `read()` at offset `o` of `b` while the generator is live. */
  function ByteAt(b: seq<byte>, o: nat): Result<byte>
  {
    if o < |b| then Ok(b[o]) else Err(EndOfBuffer)
  }

  /** `read(n)` with a constant n > 1 at offset `o` of `b`. */
  function SliceAt(b: seq<byte>, o: nat, n: nat): Result<seq<byte>>
  {
    if o + n <= |b| then Ok(b[o..o + n]) else Err(RangeError)
  }

  /** `read(n)` for any n, at offset `o` of `b` while the generator is live. */
  function ReadAt(b: seq<byte>, o: nat, n: int): Result<Parsed<Got>>
  {
    if n > 1 then
      if o + n <= |b| then Ok(Parsed(Many(b[o..o + n]), o + n)) else Err(RangeError)
    else
      if o < |b| then Ok(Parsed(One(b[o]), o + 1)) else Err(EndOfBuffer)
  }

  /** A parser's result and the cursor's final offset, in the shape of `Parsed`. */
  function Outcome<T>(r: Result<T>, offset: nat): Result<Parsed<T>>
  {
    match r
    case Ok(v) => Ok(Parsed(v, offset))
    case Err(e) => Err(e)
  }

  /** `xs` in front of the items a later parse yields, or that parse's error. */
  function Prepend<T>(xs: seq<T>, r: Result<Parsed<seq<T>>>): Result<Parsed<seq<T>>>
  {
    match r
    case Ok(p) => Ok(Parsed(xs + p.value, p.end))
    case Err(e) => Err(e)
  }

  lemma PrependNothing<T>(r: Result<Parsed<seq<T>>>)
    ensures Prepend([], r) == r
  {
    if r.Ok? {
      assert [] + r.value.value == r.value.value;
    }
  }

  lemma PrependTwice<T>(xs: seq<T>, ys: seq<T>, r: Result<Parsed<seq<T>>>)
    ensures Prepend(xs, Prepend(ys, r)) == Prepend(xs + ys, r)
  {
    if r.Ok? {
      assert xs + (ys + r.value.value) == (xs + ys) + r.value.value;
    }
  }

  class Reader {
    /** `#bytes`: never reassigned and never written through. */
    const bytes: seq<byte>
    /** `#offset`. */
    var offset: int
    /** Whether the generator `#iterator` has returned (`done`); a finished generator stays finished. */
    var exhausted: bool

    /** The state the parsers keep: the offset inside the buffer. */
    ghost predicate Valid()
      reads this
    {
      0 <= offset <= |bytes|
    }

    constructor (bytes: seq<byte>)
      ensures this.bytes == bytes && offset == 0 && !exhausted
      ensures Valid()
    {
      this.bytes := bytes;
      offset := 0;
      exhausted := false;
    }

    /** `read(n)`. A multi-byte read is a view on `[offset, offset + n)`, which the typed-array
        constructor refuses outside the buffer; any other read asks the generator for one byte. */
    method Read(n: int) returns (r: Result<Got>)
      modifies this
      ensures n > 1 ==> exhausted == old(exhausted)
      ensures n > 1 ==> (r.Ok? <==> 0 <= old(offset) && old(offset) + n <= |bytes|)
      ensures n > 1 && r.Ok? ==>
        r.value == Many(bytes[old(offset)..old(offset) + n]) && offset == old(offset) + n
      ensures n > 1 && r.Err? ==> r.error == RangeError && offset == old(offset)
      ensures n <= 1 ==> (r.Ok? <==> !old(exhausted) && old(offset) < |bytes|)
      ensures n <= 1 && r.Ok? ==>
        && offset == old(offset) + 1 && !exhausted
        && r.value == (if old(offset) >= 0 then One(bytes[old(offset)]) else Undefined)
      ensures n <= 1 && r.Err? ==> r.error == EndOfBuffer && exhausted && offset == old(offset)
      ensures old(Valid()) ==> Valid()
      ensures old(Valid()) && !old(exhausted) ==> Outcome(r, offset) == ReadAt(bytes, old(offset), n)
    {
      if n > 1 {
        if 0 <= offset && offset + n <= |bytes| {
          r := Ok(Many(bytes[offset..offset + n]));
          offset := offset + n;
        } else {
          r := Err(RangeError);
        }
        return;
      }
      if exhausted {
        return Err(EndOfBuffer);
      }
      if offset < |bytes| {
        r := Ok(if offset >= 0 then One(bytes[offset]) else Undefined);
        offset := offset + 1;
      } else {
        exhausted := true;
        r := Err(EndOfBuffer);
      }
    }

    /** `rewind(n)`: no clamping, the offset may leave the buffer. */
    method Rewind(n: int)
      modifies this
      ensures offset == old(offset) - n && exhausted == old(exhausted)
    {
      offset := offset - n;
    }

    /** `read()` as the parsers use it, on a cursor inside its buffer. */
    method ReadByte() returns (r: Result<byte>)
      requires Valid()
      modifies this
      ensures Valid()
      ensures r.Ok? <==> !old(exhausted) && old(offset) < |bytes|
      ensures r.Ok? ==> r.value == bytes[old(offset)] && offset == old(offset) + 1 && !exhausted
      ensures r.Err? ==> r.error == EndOfBuffer && exhausted && offset == old(offset)
    {
      var got := Read(1);
      if got.Err? {
        return Err(got.error);
      }
      r := Ok(got.value.b);
    }

    /** `read(n)` with a constant n > 1, as the parsers use it. */
    method ReadArray(n: int) returns (r: Result<seq<byte>>)
      requires Valid() && n > 1
      modifies this
      ensures Valid() && exhausted == old(exhausted)
      ensures r.Ok? <==> old(offset) + n <= |bytes|
      ensures r.Ok? ==> r.value == bytes[old(offset)..old(offset) + n] && offset == old(offset) + n
      ensures r.Err? ==> r.error == RangeError && offset == old(offset)
    {
      var got := Read(n);
      if got.Err? {
        return Err(got.error);
      }
      r := Ok(got.value.s);
    }

    /** `status`: "Finished reading." exactly when the offset is at the end of the buffer,
        otherwise how far the cursor got and how many bytes are left. */
    function Status(): (s: string)
      reads this
      ensures s == "Finished reading." <==> offset == |bytes|
      ensures offset != |bytes| ==>
        s == "Stopped reading at offset " + Text.Decimal(offset) + ", still "
             + Text.Decimal(|bytes| - offset) + " "
             + (if |bytes| - offset > 1 then "bytes" else "byte") + " to read."
    {
      var remaining := |bytes| - offset;
      if offset != |bytes| then
        "Stopped reading at offset " + Text.Decimal(offset) + ", still " + Text.Decimal(remaining)
        + " " + (if remaining > 1 then "bytes" else "byte") + " to read."
      else
        "Finished reading."
    }
  }
}
