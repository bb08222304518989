/** The RIFF/WAVE layout as `wav/wav.js` reads it, stated as functions of the buffer and the
    offset a parser starts at. Each function follows its parser read by read, so it fails with
    the same error at the same point; the parser methods of module `Wav` are proved against
    these, and the lemmas here say in closed form what each one accepts and produces. */
module WavGrammar {
  import opened Bytes
  import opened ByteReader
  import opened Utilities

  const WAVE_FORMAT_PCM: nat := 0x0001

  /** `KEY_FOR_INFO_CHUNK`: the INFO sub-chunk identifiers the parser knows, and the key each
      one's content is filed under. */
  const KEY_FOR_INFO_CHUNK: map<string, string> := map[
    "IARL" := "archivalLocation",
    "IART" := "artist",
    "ICMS" := "commissioned",
    "ICMT" := "comments",
    "ICOP" := "copyright",
    "ICRD" := "creationDate",
    "ICRP" := "cropped",
    "IDIM" := "dimensions",
    "IDPI" := "dpi",
    "IENG" := "engineer",
    "IGNR" := "genre",
    "IKEY" := "keywords",
    "ILGT" := "lightness",
    "IMED" := "medium",
    "INAM" := "name",
    "IPLT" := "paletteSetting",
    "IPRD" := "product",
    "ISBJ" := "subject",
    "ISFT" := "software",
    "ISHP" := "sharpness",
    "ISRC" := "source",
    "ISRF" := "sourceForm",
    "ITCH" := "technician"
  ]

  datatype RiffChunk = RiffChunk(chunk: string, chunkSize: nat, formType: string)

  /** The fields of a `fmt ` chunk; `wBitsPerSample` is there for PCM only. */
  datatype Format = Format(
    wFormatTag: nat, wChannels: nat, dwSamplesPerSec: nat, dwAvgBytesPerSec: nat,
    wBlockAlign: nat, wBitsPerSample: Option<nat>)

  datatype FormatChunk = FormatChunk(chunk: string, chunkSize: nat, format: Format)

  /** A `data` chunk; `data` is what `read(ckSize)` returned, a bare byte when ckSize <= 1. */
  datatype DataChunk = DataChunk(chunk: string, chunkSize: nat, data: Got)

  datatype InfoChunk = InfoChunk(chunk: string, chunkSize: nat, content: string, key: string)

  datatype ListChunk = ListChunk(chunk: string, chunks: seq<InfoChunk>, chunkSize: nat, listType: string)

  /** One `{[key]: content}` object of the `info` list. */
  datatype InfoEntry = InfoEntry(key: string, content: string)

  /** What the sibling-chunk scan has collected: the last `data` chunk's data and the last
      INFO list, each absent until such a chunk is met. */
  datatype SubChunks = SubChunks(data: Option<Got>, info: Option<seq<InfoEntry>>)

  /** The parsed file: the format fields without `chunk` and `chunkSize`, then what the scan
      collected. */
  datatype Wave = Wave(format: Format, data: Option<Got>, info: Option<seq<InfoEntry>>)

  /** `toUint16`: two bytes, little-endian; the encoding reads back to the same bytes. */
  function ToUint16(s: seq<byte>): (v: nat)
    requires |s| == 2
    ensures v < 65536 && v == s[0] as int + 256 * s[1] as int
    ensures LeBytes(v, 2) == s
  {
    LeUint2(s);
    LeBytesOfLeUint(s);
    LeUint(s)
  }

  /** `toUint32`: four bytes, little-endian; the encoding reads back to the same bytes. */
  function ToUint32(s: seq<byte>): (v: nat)
    requires |s| == 4
    ensures v < 0x1_0000_0000
    ensures LeBytes(v, 4) == s
  {
    assert Pow256(4) == 0x1_0000_0000;
    LeBytesOfLeUint(s);
    LeUint(s)
  }

  /** `toInt16`: two bytes, little-endian, two's complement. */
  function ToInt16(s: seq<byte>): (v: int)
    requires |s| == 2
    ensures -32768 <= v < 32768
    ensures v % 65536 == s[0] as int + 256 * s[1] as int
    ensures v < 0 <==> s[1] >= 128
  {
    Int16Wraps(ToUint16(s));
    Int16(ToUint16(s))
  }

  /** How many bytes `read(n)` takes: n for an array, one for a single byte. */
  function ReadSpan(n: int): nat
  {
    if n > 1 then n else 1
  }

  /** `.filter(Boolean)` on a byte array: the bytes other than zero. */
  function DropZeros(s: seq<byte>): (r: seq<byte>)
    ensures |r| <= |s|
    ensures forall i :: 0 <= i < |r| ==> r[i] != 0
    ensures forall x :: x != 0 ==> multiset(r)[x] == multiset(s)[x]
  {
    if s == [] then []
    else
      assert s == [s[0]] + s[1..];
      if s[0] == 0 then DropZeros(s[1..]) else [s[0]] + DropZeros(s[1..])
  }

  /** The byte array `new Reader(read(ckSize - 4))` wraps: the bytes read, or, when the read
      handed back a bare number v, the v zero bytes `new Uint8Array(v)` makes of it. */
  function SubBuffer(g: Got): (s: seq<byte>)
    ensures g.Many? ==> s == g.s
    ensures g.One? ==> |s| == g.b && forall i :: 0 <= i < |s| ==> s[i] == 0
  {
    match g
    case Many(s) => s
    case One(v) => seq(v, _ => 0)
    case Undefined => []
  }

  /** `chunks.map(({content, key}) => ({[key]: content}))`. */
  function Entries(chunks: seq<InfoChunk>): (r: seq<InfoEntry>)
    ensures |r| == |chunks|
    ensures forall i :: 0 <= i < |r| ==> r[i] == InfoEntry(chunks[i].key, chunks[i].content)
  {
    seq(|chunks|, i requires 0 <= i < |chunks| => InfoEntry(chunks[i].key, chunks[i].content))
  }

  /** The failures the chunks after `fmt ` can end the parse with. */
  predicate ScanError(e: Error)
  {
    e == RangeError || e == EndOfBuffer || e == TypeError
    || e == BadChunkId || e == UnknownListType || e == UnknownInfoChunk
  }

  // ---------------------------------------------------------------- chunks

  function RiffChunkAt(b: seq<byte>, o: nat): (r: Result<Parsed<RiffChunk>>)
    ensures r.Ok? <==> o + 12 <= |b| && Ascii(b[o..o + 4]) == "RIFF"
    ensures o + 12 > |b| ==> r == Err(RangeError)
    ensures o + 12 <= |b| && Ascii(b[o..o + 4]) != "RIFF" ==> r == Err(BadChunkId)
    ensures r.Ok? ==>
      && r.value.end == o + 12
      && r.value.value == RiffChunk("RIFF", LeUint(b[o + 4..o + 8]), Ascii(b[o + 8..o + 12]))
  {
    var id :- SliceAt(b, o, 4);
    var size :- SliceAt(b, o + 4, 4);
    var formType :- SliceAt(b, o + 8, 4);
    if Ascii(id) != "RIFF" then Err(BadChunkId)
    else Ok(Parsed(RiffChunk(Ascii(id), ToUint32(size), Ascii(formType)), o + 12))
  }

  function FormatChunkAt(b: seq<byte>, o: nat): (r: Result<Parsed<FormatChunk>>)
    ensures r.Ok? ==> o + 22 <= r.value.end <= |b|
    ensures r.Err? ==> r.error == BadChunkId || r.error == RangeError
  {
    var id :- SliceAt(b, o, 4);
    var size :- SliceAt(b, o + 4, 4);
    if Ascii(id) != "fmt " then Err(BadChunkId)
    else
      var fields :- FormatFieldsAt(b, o + 8);
      Ok(Parsed(FormatChunk(Ascii(id), ToUint32(size), fields.value), fields.end))
  }

  /** The fields of a `fmt ` chunk from offset `o` on, after its identifier and size. */
  function FormatFieldsAt(b: seq<byte>, o: nat): (r: Result<Parsed<Format>>)
    ensures r.Ok? ==> o + 14 <= r.value.end <= |b|
    ensures r.Err? ==> r.error == RangeError
  {
    var tag :- SliceAt(b, o, 2);
    var channels :- SliceAt(b, o + 2, 2);
    var samplesPerSec :- SliceAt(b, o + 4, 4);
    var avgBytesPerSec :- SliceAt(b, o + 8, 4);
    var blockAlign :- SliceAt(b, o + 12, 2);
    var format := Format(ToUint16(tag), ToUint16(channels), ToUint32(samplesPerSec),
                         ToUint32(avgBytesPerSec), ToUint16(blockAlign), None);
    if format.wFormatTag == WAVE_FORMAT_PCM then
      var bits :- SliceAt(b, o + 14, 2);
      Ok(Parsed(format.(wBitsPerSample := Some(ToUint16(bits))), o + 16))
    else
      Ok(Parsed(format, o + 14))
  }

  function DataChunkAt(b: seq<byte>, o: nat): (r: Result<Parsed<DataChunk>>)
    ensures r.Ok? ==> o < r.value.end <= |b|
    ensures r.Err? ==> ScanError(r.error)
  {
    var id :- SliceAt(b, o, 4);
    var size :- SliceAt(b, o + 4, 4);
    var data :- ReadAt(b, o + 8, ToUint32(size));
    if Ascii(id) != "data" then Err(BadChunkId)
    else Ok(Parsed(DataChunk(Ascii(id), ToUint32(size), data.value), data.end))
  }

  /** An INFO sub-chunk: a content of one byte or none is a bare number, which has no
      `filter`; an identifier outside the dictionary is refused after the content is read. */
  function InfoChunkAt(b: seq<byte>, o: nat): (r: Result<Parsed<InfoChunk>>)
    ensures r.Ok? ==> o < r.value.end <= |b|
    ensures r.Err? ==> ScanError(r.error)
  {
    var id :- SliceAt(b, o, 4);
    var size :- SliceAt(b, o + 4, 4);
    var got :- ReadAt(b, o + 8, ToUint32(size));
    if !got.value.Many? then Err(TypeError)
    else
      var content := Ascii(DropZeros(got.value.s));
      if Ascii(id) !in KEY_FOR_INFO_CHUNK then Err(UnknownInfoChunk)
      else Ok(Parsed(InfoChunk(Ascii(id), ToUint32(size), content, KEY_FOR_INFO_CHUNK[Ascii(id)]), got.end))
  }

  /** The loop of `parseLISTChunk` over its sub-reader: INFO sub-chunks until the offset
      reaches the end of the sub-buffer. */
  function InfoChunksAt(b: seq<byte>, o: nat): (r: Result<Parsed<seq<InfoChunk>>>)
    ensures o <= |b| && r.Ok? ==> r.value.end == |b|
    ensures r.Err? ==> ScanError(r.error)
    decreases |b| - o
  {
    if o >= |b| then Ok(Parsed([], o))
    else
      var chunk :- InfoChunkAt(b, o);
      Prepend([chunk.value], InfoChunksAt(b, chunk.end))
  }

  function ListChunkAt(b: seq<byte>, o: nat): (r: Result<Parsed<ListChunk>>)
    ensures r.Ok? ==> o < r.value.end <= |b|
    ensures r.Err? ==> ScanError(r.error)
  {
    var id :- SliceAt(b, o, 4);
    var size :- SliceAt(b, o + 4, 4);
    var listType :- SliceAt(b, o + 8, 4);
    var got :- ReadAt(b, o + 12, ToUint32(size) - 4);
    var sub := SubBuffer(got.value);
    if Ascii(id) != "LIST" then Err(BadChunkId)
    else if Ascii(listType) != "INFO" then Err(UnknownListType)
    else
      var chunks :- InfoChunksAt(sub, 0);
      Ok(Parsed(ListChunk(Ascii(id), chunks.value, ToUint32(size), Ascii(listType)), got.end))
  }

  /** `parseSubChunk`: from offset `o` to the end of the buffer, a peeked identifier picks a
      `data` chunk, a LIST chunk, or a skip of four bytes; a later `data` or LIST chunk
      replaces what an earlier one left in `acc`. */
  function SubChunksAt(b: seq<byte>, o: nat, acc: SubChunks): (r: Result<Parsed<SubChunks>>)
    ensures o <= |b| && r.Ok? ==> r.value.end == |b|
    ensures r.Err? ==> ScanError(r.error)
    decreases |b| - o
  {
    if o >= |b| then Ok(Parsed(acc, o))
    else
      var n :- NextSubChunkAt(b, o, acc);
      SubChunksAt(b, n.end, n.value)
  }

  /** One turn of the scan: peek at the identifier at `o`, then a `data` chunk, a LIST chunk,
      or a skip of four bytes. */
  function NextSubChunkAt(b: seq<byte>, o: nat, acc: SubChunks): (r: Result<Parsed<SubChunks>>)
    ensures r.Ok? ==> o < r.value.end <= |b|
    ensures r.Err? ==> ScanError(r.error)
  {
    var next :- SliceAt(b, o, 4);
    if Ascii(next) == "data" then
      var d :- DataChunkAt(b, o);
      Ok(Parsed(acc.(data := Some(d.value.data)), d.end))
    else if Ascii(next) == "LIST" then
      var l :- ListChunkAt(b, o);
      Ok(Parsed(acc.(info := Some(Entries(l.value.chunks))), l.end))
    else
      Ok(Parsed(acc, o + 4))
  }

  /** `parseWAVDataStream`: the RIFF header, a WAVE form type, the `fmt ` chunk, then the
      scan of the chunks after it. */
  function WaveAt(b: seq<byte>, o: nat): (r: Result<Parsed<Wave>>)
    ensures r.Ok? ==>
      && o + 12 <= |b| && Ascii(b[o..o + 4]) == "RIFF" && Ascii(b[o + 8..o + 12]) == "WAVE"
      && FormatChunkAt(b, o + 12).Ok?
      && r.value.value.format == FormatChunkAt(b, o + 12).value.value.format
      && r.value.end == |b|
    ensures r == Err(UnsupportedFormat) <==>
      o + 12 <= |b| && Ascii(b[o..o + 4]) == "RIFF" && Ascii(b[o + 8..o + 12]) != "WAVE"
  {
    var riff :- RiffChunkAt(b, o);
    if riff.value.formType != "WAVE" then Err(UnsupportedFormat)
    else
      var format :- FormatChunkAt(b, o + 12);
      var sub :- SubChunksAt(b, format.end, SubChunks(None, None));
      Ok(Parsed(Wave(format.value.format, sub.value.data, sub.value.info), sub.end))
  }

  // ---------------------------------------------------------------- what each chunk parser accepts

  /** A `fmt ` chunk: the identifier is checked before the fields are read; the fields are
      little-endian at fixed offsets, and `wBitsPerSample` is read, two bytes further, exactly
      for PCM. */
  lemma FormatChunkShape(b: seq<byte>, o: nat)
    ensures var r := FormatChunkAt(b, o);
      && (r.Ok? <==>
            && o + 22 <= |b| && Ascii(b[o..o + 4]) == "fmt "
            && (LeUint(b[o + 8..o + 10]) == WAVE_FORMAT_PCM ==> o + 24 <= |b|))
      && (o + 8 <= |b| && Ascii(b[o..o + 4]) != "fmt " ==> r == Err(BadChunkId))
    ensures var r := FormatChunkAt(b, o);
      r.Ok? ==>
        var f := r.value.value.format;
        && r.value.value.chunk == "fmt " && r.value.value.chunkSize == LeUint(b[o + 4..o + 8])
        && f.wFormatTag == LeUint(b[o + 8..o + 10])
        && f.wChannels == LeUint(b[o + 10..o + 12])
        && f.dwSamplesPerSec == LeUint(b[o + 12..o + 16])
        && f.dwAvgBytesPerSec == LeUint(b[o + 16..o + 20])
        && f.wBlockAlign == LeUint(b[o + 20..o + 22])
        && (f.wBitsPerSample.Some? <==> f.wFormatTag == WAVE_FORMAT_PCM)
        && (f.wBitsPerSample.Some? ==> f.wBitsPerSample.value == LeUint(b[o + 22..o + 24]))
        && r.value.end == o + (if f.wFormatTag == WAVE_FORMAT_PCM then 24 else 22)
  {
  }

  /** A `data` chunk: `ckSize` bytes after the 8-byte header, or a single bare byte when
      `ckSize` is 0 or 1; the payload is read before the identifier is checked. */
  lemma DataChunkShape(b: seq<byte>, o: nat)
    ensures var r := DataChunkAt(b, o);
      r.Ok? <==>
        o + 8 <= |b| && o + 8 + ReadSpan(LeUint(b[o + 4..o + 8])) <= |b| && Ascii(b[o..o + 4]) == "data"
    ensures var r := DataChunkAt(b, o);
      r.Ok? ==>
        var size := LeUint(b[o + 4..o + 8]);
        && r.value.end == o + 8 + ReadSpan(size)
        && r.value.value.chunk == "data" && r.value.value.chunkSize == size
        && r.value.value.data == (if size > 1 then Many(b[o + 8..o + 8 + size]) else One(b[o + 8]))
    ensures var r := DataChunkAt(b, o);
      r.Err? && r.error != BadChunkId ==> r.error == RangeError || r.error == EndOfBuffer
  {
  }

  /** An INFO sub-chunk: a content of one byte or none is a bare number, which has no
      `filter`; the content keeps every byte but the zeros; an identifier outside the
      dictionary is refused after the content is read. */
  lemma InfoChunkShape(b: seq<byte>, o: nat)
    ensures var r := InfoChunkAt(b, o);
      r.Ok? <==>
        && o + 8 <= |b|
        && var size := LeUint(b[o + 4..o + 8]);
        && size > 1 && o + 8 + size <= |b| && Ascii(b[o..o + 4]) in KEY_FOR_INFO_CHUNK
    ensures o + 8 < |b| && LeUint(b[o + 4..o + 8]) <= 1 ==> InfoChunkAt(b, o) == Err(TypeError)
    ensures var r := InfoChunkAt(b, o);
      r.Ok? ==>
        var size := LeUint(b[o + 4..o + 8]);
        && r.value.end == o + 8 + size
        && r.value.value.chunk == Ascii(b[o..o + 4]) && r.value.value.chunkSize == size
        && r.value.value.content == Ascii(DropZeros(b[o + 8..o + 8 + size]))
        && r.value.value.key == KEY_FOR_INFO_CHUNK[Ascii(b[o..o + 4])]
  {
  }

  /** A LIST chunk: the 12-byte header, then `ckSize - 4` bytes (a single byte when that is
      at most one), which make the buffer its INFO sub-chunks are read from to the end; a
      wrong identifier and a list type other than INFO are refused after the payload is read. */
  lemma ListChunkShape(b: seq<byte>, o: nat)
    ensures var r := ListChunkAt(b, o);
      r.Ok? ==>
        && o + 12 < |b| && Ascii(b[o..o + 4]) == "LIST" && Ascii(b[o + 8..o + 12]) == "INFO"
        && var size := LeUint(b[o + 4..o + 8]) as int;
        && r.value.end == o + 12 + ReadSpan(size - 4)
        && r.value.value.chunk == "LIST" && r.value.value.chunkSize == size && r.value.value.listType == "INFO"
        && var sub := SubBuffer(if size - 4 > 1 then Many(b[o + 12..o + 8 + size]) else One(b[o + 12]));
        InfoChunksAt(sub, 0) == Ok(Parsed(r.value.value.chunks, |sub|))
    ensures o + 12 <= |b| && o + 12 + ReadSpan(LeUint(b[o + 4..o + 8]) - 4) <= |b| ==>
      && (Ascii(b[o..o + 4]) != "LIST" ==> ListChunkAt(b, o) == Err(BadChunkId))
      && (Ascii(b[o..o + 4]) == "LIST" && Ascii(b[o + 8..o + 12]) != "INFO" ==> ListChunkAt(b, o) == Err(UnknownListType))
  {
    var r := ListChunkAt(b, o);
    if r.Ok? {
      var size := LeUint(b[o + 4..o + 8]) as int;
      var got := ReadAt(b, o + 12, size - 4);
      assert got.Ok? && got.value.value == (if size - 4 > 1 then Many(b[o + 12..o + 8 + size]) else One(b[o + 12]));
    }
  }

  // ---------------------------------------------------------------- properties of the scan

  /** At `p` the scan peeks an identifier that is neither `data` nor `LIST`. */
  predicate Unknown(b: seq<byte>, p: nat)
  {
    p + 4 <= |b| && Ascii(b[p..p + 4]) != "data" && Ascii(b[p..p + 4]) != "LIST"
  }

  /** The identifiers the scan peeks from `o` up to `end`, four bytes apart, are all unknown. */
  predicate UnknownRun(b: seq<byte>, o: nat, end: nat)
    decreases end - o
  {
    o == end || (o < end && Unknown(b, o) && UnknownRun(b, o + 4, end))
  }

  lemma SkipOne(b: seq<byte>, o: nat, acc: SubChunks)
    requires Unknown(b, o)
    ensures SubChunksAt(b, o, acc) == SubChunksAt(b, o + 4, acc)
  {
    assert SliceAt(b, o, 4) == Ok(b[o..o + 4]);
  }

  /** Identifiers other than `data` and `LIST` move the scan on by exactly four bytes each and
      add nothing to what it collects. */
  lemma {:induction false} UnknownIdsAreSkipped(b: seq<byte>, o: nat, end: nat, acc: SubChunks)
    requires UnknownRun(b, o, end)
    ensures SubChunksAt(b, o, acc) == SubChunksAt(b, end, acc)
    decreases end - o
  {
    if o != end {
      SkipOne(b, o, acc);
      UnknownIdsAreSkipped(b, o + 4, end, acc);
    }
  }

  /** What the scan started with only survives where no later chunk replaced it: two scans of
      the same bytes fail or succeed together, end together, and differ in a field only if
      neither of them met a chunk for that field. */
  lemma {:induction false} LaterChunksReplace(b: seq<byte>, o: nat, acc1: SubChunks, acc2: SubChunks)
    ensures var (r1, r2) := (SubChunksAt(b, o, acc1), SubChunksAt(b, o, acc2));
      && (r1.Ok? <==> r2.Ok?)
      && (r1.Err? ==> r1.error == r2.error)
      && (r1.Ok? ==> r1.value.end == r2.value.end)
      && (r1.Ok? ==> r1.value.value.data == r2.value.value.data
                     || (r1.value.value.data == acc1.data && r2.value.value.data == acc2.data))
      && (r1.Ok? ==> r1.value.value.info == r2.value.value.info
                     || (r1.value.value.info == acc1.info && r2.value.value.info == acc2.info))
    decreases |b| - o
  {
    if o < |b| && o + 4 <= |b| {
      var next := b[o..o + 4];
      if Ascii(next) == "data" {
        var d := DataChunkAt(b, o);
        if d.Ok? {
          LaterChunksReplace(b, d.value.end, acc1.(data := Some(d.value.value.data)), acc2.(data := Some(d.value.value.data)));
        }
      } else if Ascii(next) == "LIST" {
        var l := ListChunkAt(b, o);
        if l.Ok? {
          var info := Some(Entries(l.value.value.chunks));
          LaterChunksReplace(b, l.value.end, acc1.(info := info), acc2.(info := info));
        }
      } else {
        LaterChunksReplace(b, o + 4, acc1, acc2);
      }
    }
  }

  /** A LIST chunk whose `ckSize - 4` is at most one reads a single byte v, and the sub-reader
      then runs over v zero bytes: an empty INFO list when v is 0, and otherwise a failure. */
  lemma ShortListChunk(b: seq<byte>, o: nat)
    requires o + 13 <= |b| && Ascii(b[o..o + 4]) == "LIST" && Ascii(b[o + 8..o + 12]) == "INFO"
    requires LeUint(b[o + 4..o + 8]) <= 5
    ensures b[o + 12] == 0 ==>
      ListChunkAt(b, o) == Ok(Parsed(ListChunk("LIST", [], LeUint(b[o + 4..o + 8]), "INFO"), o + 13))
    ensures b[o + 12] != 0 ==> ListChunkAt(b, o).Err?
  {
    var size := LeUint(b[o + 4..o + 8]) as int;
    var sub := SubBuffer(One(b[o + 12]));
    assert ReadAt(b, o + 12, size - 4) == Ok(Parsed(One(b[o + 12]), o + 13));
    if b[o + 12] != 0 {
      var c := InfoChunkAt(sub, 0);
      if 8 <= |sub| {
        LeUint4(sub[4..8]);
      }
      assert c.Err?;
    }
  }
}
