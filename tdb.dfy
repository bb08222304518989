/** The TDB texture container of `ff7-model-viewer/model-viewer.js`: a 16-byte header, then the
    images, 512 bytes each, each byte holding two 4-bit palette indices, then the palettes, 16
    colours each, each colour a 16-bit AB5G5R5 word. The parser reads the images right after
    the header and the palettes right after the images; the two offsets of the header are read
    but not used. */
module Tdb {
  import opened Bytes
  import opened LeReader

  // ---------------------------------------------------------------- header

  datatype TdbHeader = TdbHeader(
    imageCount: nat,
    imageOffset: nat,
    paletteCount: nat,
    paletteOffset: nat,
    totalDataSize: nat)

  /** `parseTDBHeader`: a 32-bit size, the two 16-bit counts and two 32-bit offsets. */
  function TdbHeaderAt(b: seq<byte>, p: int): (r: Result<Placed<TdbHeader>>)
    ensures r.Ok? <==> Fits(p, 16, |b|)
    ensures r.Ok? ==> && r.value.end == p + 16
                      && r.value.value.imageCount == LeUint(b[p + 4..p + 6])
                      && r.value.value.paletteCount == LeUint(b[p + 6..p + 8])
    ensures r.Err? ==> r.error == RangeError
  {
    if !Fits(p, 16, |b|) then Err(RangeError)
    else
      FieldsAreLeUint(b, p + 4);
      FieldsAreLeUint(b, p + 6);
      Ok(Placed(TdbHeader(
        imageCount := U16(b, p + 4),
        imageOffset := U32(b, p + 8),
        paletteCount := U16(b, p + 6),
        paletteOffset := U32(b, p + 12),
        totalDataSize := U32(b, p)), p + 16))
  }

  // ---------------------------------------------------------------- images

  /** `.map((byte) => [byte & 0b1111, byte >> 4]).flat()`: each byte becomes its low nibble
      followed by its high nibble: twice as many palette indices as bytes, each below 16. */
  function Unpack(s: seq<byte>): (pixels: seq<nat>)
    ensures |pixels| == 2 * |s|
    ensures forall k | 0 <= k < |pixels| :: pixels[k] < 16
  {
    if s == [] then [] else [s[0] % 16, s[0] / 16] + Unpack(s[1..])
  }

  /** The pixels are twice as many as the bytes; pixel `2i` is the low nibble of byte `i` and
      pixel `2i + 1` its high nibble, so every pixel is a palette index below 16. */
  lemma {:induction false} UnpackLayout(s: seq<byte>)
    ensures |Unpack(s)| == 2 * |s|
    ensures forall i | 0 <= i < |s| :: Unpack(s)[2 * i] == s[i] % 16 && Unpack(s)[2 * i + 1] == s[i] / 16
    ensures forall k | 0 <= k < |Unpack(s)| :: Unpack(s)[k] < 16
  {
    if s != [] {
      UnpackLayout(s[1..]);
      var rest := Unpack(s[1..]);
      assert Unpack(s) == [s[0] % 16, s[0] / 16] + rest;
      forall i | 1 <= i < |s|
        ensures Unpack(s)[2 * i] == s[i] % 16 && Unpack(s)[2 * i + 1] == s[i] / 16
      {
        assert s[1..][i - 1] == s[i];
        assert Unpack(s)[2 * i] == rest[2 * (i - 1)];
        assert Unpack(s)[2 * i + 1] == rest[2 * (i - 1) + 1];
      }
      forall k | 2 <= k < |Unpack(s)|
        ensures Unpack(s)[k] < 16
      {
        assert Unpack(s)[k] == rest[k - 2];
      }
    }
  }

  /** Two nibbles back into a byte, low nibble first: the partner of `Unpack`. */
  function Pack(pixels: seq<nat>): seq<byte>
    requires |pixels| % 2 == 0 && forall k | 0 <= k < |pixels| :: pixels[k] < 16
  {
    if pixels == [] then [] else [pixels[0] + 16 * pixels[1]] + Pack(pixels[2..])
  }

  /** Unpacking loses nothing: packing the indices again gives back the bytes. */
  lemma {:induction false} PackUnpack(s: seq<byte>)
    ensures |Unpack(s)| == 2 * |s| && forall k | 0 <= k < |Unpack(s)| :: Unpack(s)[k] < 16
    ensures Pack(Unpack(s)) == s
  {
    UnpackLayout(s);
    if s != [] {
      PackUnpack(s[1..]);
      assert Unpack(s)[2..] == Unpack(s[1..]);
      assert [s[0]] + s[1..] == s;
    }
  }

  /** One image: the 512 bytes at `o`, unpacked into 1024 indices. */
  function ImageAt(b: seq<byte>, o: int): (r: Result<seq<nat>>)
    ensures r.Ok? <==> Fits(o, 512, |b|)
    ensures r.Err? ==> r.error == RangeError
  {
    if Fits(o, 512, |b|) then Ok(Unpack(b[o..o + 512])) else Err(RangeError)
  }

  function ImageRecord(b: seq<byte>): int -> Result<seq<nat>>
  {
    o => ImageAt(b, o)
  }

  // ---------------------------------------------------------------- palettes

  /** An RGBA colour with 8-bit channels. */
  datatype Rgba = Rgba(r: nat, g: nat, b: nat, a: nat)

  /** An AB5G5R5 word as the parser reads it: each 5-bit field times 8, and alpha 0 when
      bit 15 is set, 255 when it is clear. This follows the code; the comment above it in
      ff7-model-viewer/model-viewer.js (line 480) says instead that a set bit 15 means
      opaque. */
  function ColorOf(c: nat): (color: Rgba)
    requires c < 0x1_0000
    ensures color.r % 8 == 0 && color.g % 8 == 0 && color.b % 8 == 0
    ensures color.r < 256 && color.g < 256 && color.b < 256
    ensures color.a == 0 <==> c >= 0x8000
    ensures color.a == 0 || color.a == 255
  {
    Rgba(
      r := (c % 32) * 8,
      g := (c / 32 % 32) * 8,
      b := (c / 1024 % 32) * 8,
      a := if c / 32768 != 0 then 0 else 255)
  }

  /** Whether a colour is one that `ColorOf` can produce. */
  predicate IsAb5g5r5(color: Rgba)
  {
    && color.r % 8 == 0 && color.g % 8 == 0 && color.b % 8 == 0
    && color.r < 256 && color.g < 256 && color.b < 256
    && (color.a == 0 || color.a == 255)
  }

  /** The AB5G5R5 word of a colour: the partner of `ColorOf`. */
  function WordOf(color: Rgba): (c: nat)
    requires IsAb5g5r5(color)
    ensures c < 0x1_0000
  {
    color.r / 8 + 32 * (color.g / 8) + 1024 * (color.b / 8) + 32768 * (if color.a == 0 then 1 else 0)
  }

  /** A 16-bit word is its four fields put back together. */
  lemma Fields(c: nat)
    requires c < 0x1_0000
    ensures c == c % 32 + 32 * (c / 32 % 32) + 1024 * (c / 1024 % 32) + 32768 * (c / 32768)
    ensures c / 32768 < 2
  {
    DivDiv(c, 32, 32);
    DivDiv(c, 1024, 32);
    assert c / 32 == c / 32 % 32 + 32 * (c / 32 / 32);
    assert c / 1024 == c / 1024 % 32 + 32 * (c / 1024 / 32);
  }

  /** Decoding a word and encoding the colour gives the word back. */
  lemma WordOfColorOf(c: nat)
    requires c < 0x1_0000
    ensures WordOf(ColorOf(c)) == c
  {
    Fields(c);
  }

  /** Encoding a colour and decoding the word gives the colour back. */
  lemma ColorOfWordOf(color: Rgba)
    requires IsAb5g5r5(color)
    ensures ColorOf(WordOf(color)) == color
  {
    var r, g, bl := color.r / 8, color.g / 8, color.b / 8;
    var top := if color.a == 0 then 1 else 0;
    var c := WordOf(color);
    DivModUnique(c, 32, g + 32 * bl + 1024 * top, r);
    DivModUnique(c / 32, 32, bl + 32 * top, g);
    DivModUnique(c, 1024, bl + 32 * top, r + 32 * g);
    DivModUnique(c / 1024, 32, top, bl);
    DivModUnique(c, 32768, top, r + 32 * g + 1024 * bl);
  }

  /** One palette: 16 colours, two bytes apart from `o`. */
  function PaletteAt(b: seq<byte>, o: int): (r: Result<seq<Rgba>>)
    ensures r.Ok? <==> Fits(o, 32, |b|)
    ensures r.Ok? ==> |r.value| == 16
    ensures r.Err? ==> r.error == RangeError
  {
    if Fits(o, 32, |b|) then Ok(seq(16, k requires 0 <= k < 16 => ColorOf(U16(b, o + 2 * k))))
    else Err(RangeError)
  }

  function PaletteRecord(b: seq<byte>): int -> Result<seq<Rgba>>
  {
    o => PaletteAt(b, o)
  }

  // ---------------------------------------------------------------- the container

  datatype Textures = Textures(images: seq<seq<nat>>, palettes: seq<seq<Rgba>>)

  /** `parseTDBData` at `p`: the images, 512 bytes apart, then the palettes right after the
      images, 32 bytes apart. */
  function TdbDataAt(b: seq<byte>, p: int, h: TdbHeader): (r: Result<Textures>)
  {
    match RecordsAt(ImageRecord(b), p, 512, h.imageCount)
    case Err(e) => Err(e)
    case Ok(images) =>
      match RecordsAt(PaletteRecord(b), images.end, 32, h.paletteCount)
      case Err(e) => Err(e)
      case Ok(palettes) => Ok(Textures(images.value, palettes.value))
  }

  /** `parseTDB` at `p`: the header, then the data right after it. */
  function TdbAt(b: seq<byte>, p: int): (r: Result<Textures>)
  {
    match TdbHeaderAt(b, p)
    case Err(e) => Err(e)
    case Ok(header) => TdbDataAt(b, header.end, header.value)
  }

  /** A TDB container is read exactly when its header and the `imageCount` images and
      `paletteCount` palettes that follow it lie in the buffer. */
  lemma TdbExtent(b: seq<byte>, p: int)
    ensures TdbAt(b, p).Ok? <==>
      && TdbHeaderAt(b, p).Ok?
      && var h := TdbHeaderAt(b, p).value.value;
         Fits(p, 16 + 512 * h.imageCount + 32 * h.paletteCount, |b|)
  {
    if TdbHeaderAt(b, p).Ok? {
      var h := TdbHeaderAt(b, p).value.value;
      RecordsFit(ImageRecord(b), p + 16, 512, 512, h.imageCount, |b|);
      var imagesEnd := p + 16 + 512 * h.imageCount;
      RecordsFit(PaletteRecord(b), imagesEnd, 32, 32, h.paletteCount, |b|);
      if RecordsAt(ImageRecord(b), p + 16, 512, h.imageCount).Ok? {
        RecordsEnd(ImageRecord(b), p + 16, 512, h.imageCount);
      }
      if h.imageCount > 0 {
        assert 512 * (h.imageCount - 1) + 512 == 512 * h.imageCount;
      }
      if h.paletteCount > 0 {
        assert 32 * (h.paletteCount - 1) + 32 == 32 * h.paletteCount;
      }
    }
  }

  /** Image `i` of data read from `p` is the 512 bytes at `p + 512 * i`, unpacked into 1024
      indices below 16. */
  lemma TdbImagesLayout(b: seq<byte>, p: int, h: TdbHeader)
    requires TdbDataAt(b, p, h).Ok?
    ensures var t := TdbDataAt(b, p, h).value;
      && |t.images| == h.imageCount
      && forall i | 0 <= i < h.imageCount ::
           && Fits(p + 512 * i, 512, |b|)
           && t.images[i] == Unpack(b[p + 512 * i..p + 512 * i + 512])
           && |t.images[i]| == 1024
           && forall k | 0 <= k < 1024 :: t.images[i][k] < 16
  {
    var t := TdbDataAt(b, p, h).value;
    RunLayout(ImageRecord(b), p, 512, h.imageCount);
    forall i | 0 <= i < h.imageCount
      ensures && Fits(p + 512 * i, 512, |b|)
              && t.images[i] == Unpack(b[p + 512 * i..p + 512 * i + 512])
              && |t.images[i]| == 1024
              && forall k | 0 <= k < 1024 :: t.images[i][k] < 16
    {
      assert ImageRecord(b)(p + 512 * i) == Ok(t.images[i]);
      UnpackLayout(b[p + 512 * i..p + 512 * i + 512]);
    }
  }

  /** Colour `k` of palette `j` of data read from `p` is the word at
      `p + 512 * imageCount + 32 * j + 2 * k`, decoded: the palettes follow the images. */
  lemma TdbPalettesLayout(b: seq<byte>, p: int, h: TdbHeader)
    requires TdbDataAt(b, p, h).Ok?
    ensures var t := TdbDataAt(b, p, h).value;
      var start := p + 512 * h.imageCount;
      && |t.palettes| == h.paletteCount
      && forall j | 0 <= j < h.paletteCount ::
           && Fits(start + 32 * j, 32, |b|)
           && |t.palettes[j]| == 16
           && forall k | 0 <= k < 16 :: t.palettes[j][k] == ColorOf(U16(b, start + 32 * j + 2 * k))
  {
    var t := TdbDataAt(b, p, h).value;
    RecordsEnd(ImageRecord(b), p, 512, h.imageCount);
    var start := p + 512 * h.imageCount;
    RunLayout(PaletteRecord(b), start, 32, h.paletteCount);
    forall j | 0 <= j < h.paletteCount
      ensures && Fits(start + 32 * j, 32, |b|)
              && |t.palettes[j]| == 16
              && forall k | 0 <= k < 16 :: t.palettes[j][k] == ColorOf(U16(b, start + 32 * j + 2 * k))
    {
      assert PaletteRecord(b)(start + 32 * j) == Ok(t.palettes[j]);
    }
  }

  // ---------------------------------------------------------------- the parser

  /** `parseTDBHeader`. */
  method ParseTdbHeader(reader: Reader) returns (r: Result<TdbHeader>)
    modifies reader
    ensures Landed(r, reader.offset) == TdbHeaderAt(reader.buffer, old(reader.offset))
  {
    var totalDataSize :- reader.GetUint32();
    var imageCount :- reader.GetUint16();
    var paletteCount :- reader.GetUint16();
    var imageOffset :- reader.GetUint32();
    var paletteOffset :- reader.GetUint32();
    r := Ok(TdbHeader(
      imageCount := imageCount,
      imageOffset := imageOffset,
      paletteCount := paletteCount,
      paletteOffset := paletteOffset,
      totalDataSize := totalDataSize));
  }

  /** One turn of the images map: `getBytes(512)`, unpacked. */
  method ReadImage(reader: Reader) returns (r: Result<seq<nat>>)
    modifies reader
    ensures r == ImageRecord(reader.buffer)(old(reader.offset))
    ensures r.Ok? ==> reader.offset == old(reader.offset) + 512
  {
    var bytes :- reader.GetBytes(512);
    r := Ok(Unpack(bytes));
  }

  method ReadImages(reader: Reader, n: nat) returns (r: Result<seq<seq<nat>>>)
    modifies reader
    ensures Landed(r, reader.offset) == RecordsAt(ImageRecord(reader.buffer), old(reader.offset), 512, n)
  {
    var images: seq<seq<nat>> := [];
    ghost var read := ImageRecord(reader.buffer);
    ghost var run := RecordsAt(read, reader.offset, 512, n);
    PrecededNothing(run);
    for i := 0 to n
      invariant run == Preceded(images, RecordsAt(read, reader.offset, 512, n - i))
    {
      ghost var rest := RecordsAt(read, reader.offset + 512, 512, n - i - 1);
      var image :- ReadImage(reader);
      PrecededTwice(images, [image], rest);
      images := images + [image];
    }
    assert images + [] == images;
    r := Ok(images);
  }

  /** One turn of the palettes map: sixteen `getUint16()` words, decoded. */
  method ReadPalette(reader: Reader) returns (r: Result<seq<Rgba>>)
    modifies reader
    ensures r == PaletteRecord(reader.buffer)(old(reader.offset))
    ensures r.Ok? ==> reader.offset == old(reader.offset) + 32
  {
    ghost var o := reader.offset;
    ghost var b := reader.buffer;
    var colors: seq<Rgba> := [];
    for k := 0 to 16
      invariant reader.offset == o + 2 * k
      invariant k > 0 ==> Fits(o, 2 * k, |b|)
      invariant |colors| == k
      invariant forall j | 0 <= j < k :: Fits(o + 2 * j, 2, |b|) && colors[j] == ColorOf(U16(b, o + 2 * j))
    {
      var word :- reader.GetUint16();
      colors := colors + [ColorOf(word)];
    }
    assert colors == PaletteAt(b, o).value;
    r := Ok(colors);
  }

  method ReadPalettes(reader: Reader, n: nat) returns (r: Result<seq<seq<Rgba>>>)
    modifies reader
    ensures Landed(r, reader.offset) == RecordsAt(PaletteRecord(reader.buffer), old(reader.offset), 32, n)
  {
    var palettes: seq<seq<Rgba>> := [];
    ghost var read := PaletteRecord(reader.buffer);
    ghost var run := RecordsAt(read, reader.offset, 32, n);
    PrecededNothing(run);
    for i := 0 to n
      invariant run == Preceded(palettes, RecordsAt(read, reader.offset, 32, n - i))
    {
      ghost var rest := RecordsAt(read, reader.offset + 32, 32, n - i - 1);
      var palette :- ReadPalette(reader);
      PrecededTwice(palettes, [palette], rest);
      palettes := palettes + [palette];
    }
    assert palettes + [] == palettes;
    r := Ok(palettes);
  }

  /** `parseTDBData`: the images, then the palettes, where the cursor stands. */
  method ParseTdbData(reader: Reader, header: TdbHeader) returns (r: Result<Textures>)
    modifies reader
    ensures r == TdbDataAt(reader.buffer, old(reader.offset), header)
  {
    var images :- ReadImages(reader, header.imageCount);
    var palettes :- ReadPalettes(reader, header.paletteCount);
    r := Ok(Textures(images, palettes));
  }

  /** `parseTDB`. */
  method ParseTdb(reader: Reader) returns (r: Result<Textures>)
    modifies reader
    ensures r == TdbAt(reader.buffer, old(reader.offset))
  {
    var header :- ParseTdbHeader(reader);
    r := ParseTdbData(reader, header);
  }
}
