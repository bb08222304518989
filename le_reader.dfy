/** The little-endian cursor that `zip/zip.js` and `ff7-model-viewer/model-viewer.js` construct
    with `{endianness: Reader.LITTLE}`. Its source is not part of this model; what is modelled is
    only what those two files rely on: an assignable `offset`, a `buffer`, and getters that read
    at the offset, advance it by their width and fail with a RangeError outside the buffer. */
module LeReader {
  import opened Bytes

  /** Whether `width` bytes can be read at `offset` of a buffer of `length` bytes. */
  predicate Fits(offset: int, width: nat, length: nat)
  {
    0 <= offset && offset + width <= length
  }

  /** The unsigned little-endian 16-bit field at `p`. */
  function U16(b: seq<byte>, p: int): (v: nat)
    requires Fits(p, 2, |b|)
    ensures v < 0x1_0000
  {
    b[p] as int + 256 * b[p + 1] as int
  }

  /** The unsigned little-endian 32-bit field at `p`. */
  function U32(b: seq<byte>, p: int): (v: nat)
    requires Fits(p, 4, |b|)
    ensures v < 0x1_0000_0000
  {
    b[p] as int + 256 * b[p + 1] as int + 0x1_0000 * b[p + 2] as int + 0x100_0000 * b[p + 3] as int
  }

  /** Both fields are the little-endian numbers of their bytes. */
  lemma FieldsAreLeUint(b: seq<byte>, p: int)
    requires Fits(p, 2, |b|)
    ensures U16(b, p) == LeUint(b[p..p + 2])
    ensures Fits(p, 4, |b|) ==> U32(b, p) == LeUint(b[p..p + 4])
  {
    LeUint2(b[p..p + 2]);
    if Fits(p, 4, |b|) {
      LeUint4(b[p..p + 4]);
    }
  }

  /** A value read from a buffer and the offset just past it; the offset of this cursor is an
      assignable integer, so it is not a `nat` here. */
  datatype Placed<T> = Placed(value: T, end: int)

  /** A parser's result and the cursor's final offset, in the shape of `Placed`. */
  function Landed<T>(r: Result<T>, offset: int): Result<Placed<T>>
  {
    match r
    case Ok(v) => Ok(Placed(v, offset))
    case Err(e) => Err(e)
  }

  /** Whether `n` records laid `stride` bytes apart from `p`, each read on its first `width`
      bytes, lie in a buffer of `length` bytes; no record means no read at all. */
  predicate Spans(p: int, n: nat, stride: nat, width: nat, length: nat)
  {
    n == 0 || Fits(p, stride * (n - 1) + width, length)
  }

  /** `xs` in front of the records a later run yields, or that run's error. */
  function Preceded<T>(xs: seq<T>, r: Result<Placed<seq<T>>>): Result<Placed<seq<T>>>
  {
    match r
    case Ok(run) => Ok(Placed(xs + run.value, run.end))
    case Err(e) => Err(e)
  }

  /** `Array.from({length: n}).map(...)` over a record that `read` decodes at an offset: the
      records `stride` bytes apart from `p`, in order, and the offset past the last one; the
      first record that fails fails the run. */
  function RecordsAt<T>(read: int -> Result<T>, p: int, stride: nat, n: nat): (r: Result<Placed<seq<T>>>)
    decreases n
  {
    if n == 0 then Ok(Placed([], p))
    else
      match read(p)
      case Err(e) => Err(e)
      case Ok(x) => Preceded([x], RecordsAt(read, p + stride, stride, n - 1))
  }

  /** One stride further along. */
  lemma StrideStep(p: int, stride: nat, i: nat)
    ensures p + stride + stride * i == p + stride * (i + 1)
  {
  }

  /** A run that succeeds holds `n` records and ends `stride * n` bytes past `p`. */
  lemma {:induction false} RecordsEnd<T>(read: int -> Result<T>, p: int, stride: nat, n: nat)
    requires RecordsAt(read, p, stride, n).Ok?
    ensures RecordsAt(read, p, stride, n).value.end == p + stride * n
    ensures |RecordsAt(read, p, stride, n).value.value| == n
    decreases n
  {
    if n > 0 {
      RecordsEnd(read, p + stride, stride, n - 1);
      StrideStep(p, stride, n - 1);
    }
  }

  /** Record `i` of a run that succeeds is the one `read` decodes at `p + stride * i`. */
  lemma {:induction false} RecordAt<T>(read: int -> Result<T>, p: int, stride: nat, n: nat, i: nat)
    requires RecordsAt(read, p, stride, n).Ok? && i < n
    ensures |RecordsAt(read, p, stride, n).value.value| == n
    ensures read(p + stride * i) == Ok(RecordsAt(read, p, stride, n).value.value[i])
    decreases n
  {
    RecordsEnd(read, p, stride, n);
    if i > 0 {
      RecordAt(read, p + stride, stride, n - 1, i - 1);
      StrideStep(p, stride, i - 1);
    }
  }

  /** A run fails when one of its records does. */
  lemma {:induction false} RecordFails<T>(read: int -> Result<T>, p: int, stride: nat, n: nat, i: nat)
    requires i < n && read(p + stride * i).Err?
    ensures RecordsAt(read, p, stride, n).Err?
    decreases n
  {
    if i > 0 && read(p).Ok? {
      StrideStep(p, stride, i - 1);
      RecordFails(read, p + stride, stride, n - 1, i - 1);
    }
  }

  /** A run holds `n` records, record `i` being the one at `p + stride * i`; it ends
      `stride * n` bytes past `p`, and it succeeds exactly when every record does. */
  lemma RecordsLayout<T>(read: int -> Result<T>, p: int, stride: nat, n: nat)
    ensures var r := RecordsAt(read, p, stride, n);
      && (r.Ok? <==> forall i | 0 <= i < n :: read(p + stride * i).Ok?)
      && (r.Ok? ==> && r.value.end == p + stride * n && |r.value.value| == n
                    && forall i | 0 <= i < n :: read(p + stride * i) == Ok(r.value.value[i]))
  {
    var r := RecordsAt(read, p, stride, n);
    if r.Ok? {
      RecordsEnd(read, p, stride, n);
      forall i | 0 <= i < n
        ensures read(p + stride * i).Ok? && read(p + stride * i) == Ok(r.value.value[i])
      {
        RecordAt(read, p, stride, n, i);
      }
    } else {
      if forall i | 0 <= i < n :: read(p + stride * i).Ok? {
        AllRecordsSucceed(read, p, stride, n);
      }
    }
  }

  lemma {:induction false} AllRecordsSucceed<T>(read: int -> Result<T>, p: int, stride: nat, n: nat)
    requires forall i | 0 <= i < n :: read(p + stride * i).Ok?
    ensures RecordsAt(read, p, stride, n).Ok?
    decreases n
  {
    if n > 0 {
      assert read(p + stride * 0).Ok?;
      forall i | 0 <= i < n - 1
        ensures read(p + stride + stride * i).Ok?
      {
        StrideStep(p, stride, i);
        assert read(p + stride * (i + 1)).Ok?;
      }
      AllRecordsSucceed(read, p + stride, stride, n - 1);
    }
  }

  /** When each record is read exactly on its first `width` bytes, a run succeeds exactly when
      the bytes from `p` to the end of its last record lie in the buffer. */
  lemma RecordsFit<T>(read: int -> Result<T>, p: int, stride: nat, width: nat, n: nat, length: nat)
    requires forall o :: read(o).Ok? <==> Fits(o, width, length)
    ensures RecordsAt(read, p, stride, n).Ok? <==> Spans(p, n, stride, width, length)
  {
    if Spans(p, n, stride, width, length) {
      forall i | 0 <= i < n
        ensures read(p + stride * i).Ok?
      {
        assert stride * i <= stride * (n - 1);
      }
      AllRecordsSucceed(read, p, stride, n);
    } else if n > 0 && p < 0 {
      RecordFails(read, p, stride, n, 0);
    } else if n > 0 {
      RecordFails(read, p, stride, n, n - 1);
    }
  }

  /** Record `i` of a run that succeeds is what `read` gives `stride * i` bytes past its
      start. */
  lemma RunLayout<T>(read: int -> Result<T>, p: int, stride: nat, n: nat)
    requires RecordsAt(read, p, stride, n).Ok?
    ensures |RecordsAt(read, p, stride, n).value.value| == n
    ensures forall i | 0 <= i < n :: read(p + stride * i) == Ok(RecordsAt(read, p, stride, n).value.value[i])
  {
    RecordsEnd(read, p, stride, n);
    forall i | 0 <= i < n
      ensures read(p + stride * i) == Ok(RecordsAt(read, p, stride, n).value.value[i])
    {
      RecordAt(read, p, stride, n, i);
    }
  }

  /** Prefixing twice is prefixing once with both. */
  lemma PrecededTwice<T>(xs: seq<T>, ys: seq<T>, r: Result<Placed<seq<T>>>)
    ensures Preceded(xs, Preceded(ys, r)) == Preceded(xs + ys, r)
  {
    if r.Ok? {
      assert xs + (ys + r.value.value) == (xs + ys) + r.value.value;
    }
  }

  /** Prefixing nothing changes nothing. */
  lemma PrecededNothing<T>(r: Result<Placed<seq<T>>>)
    ensures Preceded([], r) == r
  {
    if r.Ok? {
      assert [] + r.value.value == r.value.value;
    }
  }

  class Reader {
    const buffer: seq<byte>
    var offset: int

    constructor (buffer: seq<byte>)
      ensures this.buffer == buffer && offset == 0
    {
      this.buffer := buffer;
      offset := 0;
    }

    /** `getBytes(n)`: the next n bytes. */
    method GetBytes(n: nat) returns (r: Result<seq<byte>>)
      modifies this
      ensures r.Ok? <==> Fits(old(offset), n, |buffer|)
      ensures r.Ok? ==> r.value == buffer[old(offset)..old(offset) + n] && offset == old(offset) + n
      ensures r.Err? ==> r.error == RangeError && offset == old(offset)
    {
      if !Fits(offset, n, |buffer|) {
        return Err(RangeError);
      }
      r := Ok(buffer[offset..offset + n]);
      offset := offset + n;
    }

    method GetUint8() returns (r: Result<nat>)
      modifies this
      ensures r.Ok? <==> Fits(old(offset), 1, |buffer|)
      ensures r.Ok? ==> r.value == buffer[old(offset)] && offset == old(offset) + 1
      ensures r.Err? ==> r.error == RangeError && offset == old(offset)
    {
      if !Fits(offset, 1, |buffer|) {
        return Err(RangeError);
      }
      r := Ok(buffer[offset]);
      offset := offset + 1;
    }

    method GetUint16() returns (r: Result<nat>)
      modifies this
      ensures r.Ok? <==> Fits(old(offset), 2, |buffer|)
      ensures r.Ok? ==> r.value == U16(buffer, old(offset)) && offset == old(offset) + 2
      ensures r.Err? ==> r.error == RangeError && offset == old(offset)
    {
      if !Fits(offset, 2, |buffer|) {
        return Err(RangeError);
      }
      r := Ok(U16(buffer, offset));
      offset := offset + 2;
    }

    method GetUint32() returns (r: Result<nat>)
      modifies this
      ensures r.Ok? <==> Fits(old(offset), 4, |buffer|)
      ensures r.Ok? ==> r.value == U32(buffer, old(offset)) && offset == old(offset) + 4
      ensures r.Err? ==> r.error == RangeError && offset == old(offset)
    {
      if !Fits(offset, 4, |buffer|) {
        return Err(RangeError);
      }
      r := Ok(U32(buffer, offset));
      offset := offset + 4;
    }

    /** `getInt8()`: the next byte in two's complement. */
    method GetInt8() returns (r: Result<int>)
      modifies this
      ensures r.Ok? <==> Fits(old(offset), 1, |buffer|)
      ensures r.Ok? ==> r.value == Int8(buffer[old(offset)]) && offset == old(offset) + 1
      ensures r.Err? ==> r.error == RangeError && offset == old(offset)
    {
      var u :- GetUint8();
      r := Ok(Int8(u));
    }

    /** `getInt16()`: the next two bytes, little-endian, in two's complement. */
    method GetInt16() returns (r: Result<int>)
      modifies this
      ensures r.Ok? <==> Fits(old(offset), 2, |buffer|)
      ensures r.Ok? ==> r.value == Int16(U16(buffer, old(offset))) && offset == old(offset) + 2
      ensures r.Err? ==> r.error == RangeError && offset == old(offset)
    {
      var u :- GetUint16();
      r := Ok(Int16(u));
    }
  }
}
