/** The parsers of `wav/wav.js`: each one consumes the shared `Reader` the way the source does,
    and is proved to produce exactly what the matching function of `WavGrammar` describes for
    the buffer and the offset it started at. A parser that succeeds leaves the generator live. */
module Wav {
  import opened Bytes
  import opened ByteReader
  import opened Utilities
  import opened WavGrammar

  method ParseRiffChunk(reader: Reader) returns (r: Result<RiffChunk>)
    requires reader.Valid() && !reader.exhausted
    modifies reader
    ensures reader.Valid() && !reader.exhausted
    ensures Outcome(r, reader.offset) == RiffChunkAt(reader.bytes, old(reader.offset))
  {
    var ckID :- reader.ReadArray(4);
    var ckSize :- reader.ReadArray(4);
    var formType :- reader.ReadArray(4);
    if Ascii(ckID) != "RIFF" {
      return Err(BadChunkId);
    }
    return Ok(RiffChunk(Ascii(ckID), ToUint32(ckSize), Ascii(formType)));
  }

  method ParseFormatChunk(reader: Reader) returns (r: Result<FormatChunk>)
    requires reader.Valid() && !reader.exhausted
    modifies reader
    ensures reader.Valid() && !reader.exhausted
    ensures Outcome(r, reader.offset) == FormatChunkAt(reader.bytes, old(reader.offset))
  {
    var ckID :- reader.ReadArray(4);
    var ckSize :- reader.ReadArray(4);
    if Ascii(ckID) != "fmt " {
      return Err(BadChunkId);
    }
    var output :- ReadFormatFields(reader);
    return Ok(FormatChunk(Ascii(ckID), ToUint32(ckSize), output));
  }

  /** The reads of `parseFormatChunk` after the identifier check: five fields, and the bits
      per sample for PCM. */
  method ReadFormatFields(reader: Reader) returns (r: Result<Format>)
    requires reader.Valid() && !reader.exhausted
    modifies reader
    ensures reader.Valid() && !reader.exhausted
    ensures Outcome(r, reader.offset) == FormatFieldsAt(reader.bytes, old(reader.offset))
  {
    var wFormatTag :- reader.ReadArray(2);
    var wChannels :- reader.ReadArray(2);
    var dwSamplesPerSec :- reader.ReadArray(4);
    var dwAvgBytesPerSec :- reader.ReadArray(4);
    var wBlockAlign :- reader.ReadArray(2);
    var output := Format(ToUint16(wFormatTag), ToUint16(wChannels), ToUint32(dwSamplesPerSec),
                         ToUint32(dwAvgBytesPerSec), ToUint16(wBlockAlign), None);
    if output.wFormatTag == WAVE_FORMAT_PCM {
      var wBitsPerSample :- reader.ReadArray(2);
      output := output.(wBitsPerSample := Some(ToUint16(wBitsPerSample)));
    }
    return Ok(output);
  }

  /** `parseDataChunk`: the payload is read before the identifier is checked. */
  method ParseDataChunk(reader: Reader) returns (r: Result<DataChunk>)
    requires reader.Valid() && !reader.exhausted
    modifies reader
    ensures reader.Valid()
    ensures Outcome(r, reader.offset) == DataChunkAt(reader.bytes, old(reader.offset))
    ensures r.Ok? ==> !reader.exhausted
  {
    var ckID :- reader.ReadArray(4);
    var ckSize :- reader.ReadArray(4);
    var data :- reader.Read(ToUint32(ckSize));
    if Ascii(ckID) != "data" {
      return Err(BadChunkId);
    }
    return Ok(DataChunk(Ascii(ckID), ToUint32(ckSize), data));
  }

  method ParseInfoChunk(reader: Reader) returns (r: Result<InfoChunk>)
    requires reader.Valid() && !reader.exhausted
    modifies reader
    ensures reader.Valid()
    ensures Outcome(r, reader.offset) == InfoChunkAt(reader.bytes, old(reader.offset))
    ensures r.Ok? ==> !reader.exhausted
  {
    var ckID :- reader.ReadArray(4);
    var ckSize :- reader.ReadArray(4);
    var got :- reader.Read(ToUint32(ckSize));
    if !got.Many? {
      // `filter` is not a method of a number
      return Err(TypeError);
    }
    var content := Ascii(DropZeros(got.s));
    if Ascii(ckID) !in KEY_FOR_INFO_CHUNK {
      return Err(UnknownInfoChunk);
    }
    return Ok(InfoChunk(Ascii(ckID), ToUint32(ckSize), content, KEY_FOR_INFO_CHUNK[Ascii(ckID)]));
  }

  /** `parseLISTChunk`: the list's payload becomes the buffer of a reader of its own, which
      the INFO loop reads to its end. */
  method ParseListChunk(reader: Reader) returns (r: Result<ListChunk>)
    requires reader.Valid() && !reader.exhausted
    modifies reader
    ensures reader.Valid()
    ensures Outcome(r, reader.offset) == ListChunkAt(reader.bytes, old(reader.offset))
    ensures r.Ok? ==> !reader.exhausted
  {
    var chunks: seq<InfoChunk> := [];
    var ckID :- reader.ReadArray(4);
    var ckSize :- reader.ReadArray(4);
    var listType :- reader.ReadArray(4);
    var payload :- reader.Read(ToUint32(ckSize) - 4);
    var subReader := new Reader(SubBuffer(payload));

    if Ascii(ckID) != "LIST" {
      return Err(BadChunkId);
    }
    if Ascii(listType) != "INFO" {
      return Err(UnknownListType);
    }
    ghost var end := reader.offset;
    PrependNothing(InfoChunksAt(subReader.bytes, 0));
    while subReader.offset < |subReader.bytes|
      invariant subReader.Valid() && !subReader.exhausted
      invariant reader.Valid() && !reader.exhausted && reader.offset == end
      invariant InfoChunksAt(subReader.bytes, 0) == Prepend(chunks, InfoChunksAt(subReader.bytes, subReader.offset))
      decreases |subReader.bytes| - subReader.offset
    {
      var chunk :- ParseInfoChunk(subReader);
      PrependTwice(chunks, [chunk], InfoChunksAt(subReader.bytes, subReader.offset));
      chunks := chunks + [chunk];
    }
    assert chunks + [] == chunks;
    return Ok(ListChunk(Ascii(ckID), chunks, ToUint32(ckSize), Ascii(listType)));
  }

  /** `parseSubChunk`: until the offset reaches the end of the buffer, take one chunk. */
  method ParseSubChunk(reader: Reader) returns (r: Result<SubChunks>)
    requires reader.Valid() && !reader.exhausted
    modifies reader
    ensures reader.Valid()
    ensures Outcome(r, reader.offset) == SubChunksAt(reader.bytes, old(reader.offset), SubChunks(None, None))
    ensures r.Ok? ==> !reader.exhausted
  {
    var output := SubChunks(None, None);
    while reader.offset < |reader.bytes|
      invariant reader.Valid() && !reader.exhausted
      invariant SubChunksAt(reader.bytes, old(reader.offset), SubChunks(None, None))
             == SubChunksAt(reader.bytes, reader.offset, output)
      decreases |reader.bytes| - reader.offset
    {
      output :- ParseNextSubChunk(reader, output);
    }
    return Ok(output);
  }

  /** The body of the loop of `parseSubChunk`: peek at the next identifier and rewind, then
      parse a `data` or LIST chunk into `output`, or skip four bytes. */
  method ParseNextSubChunk(reader: Reader, output: SubChunks) returns (r: Result<SubChunks>)
    requires reader.Valid() && !reader.exhausted
    modifies reader
    ensures reader.Valid()
    ensures Outcome(r, reader.offset) == NextSubChunkAt(reader.bytes, old(reader.offset), output)
    ensures r.Ok? ==> !reader.exhausted
  {
    var nextChunkID :- reader.ReadArray(4);
    reader.Rewind(4);
    if Ascii(nextChunkID) == "data" {
      var chunk :- ParseDataChunk(reader);
      return Ok(output.(data := Some(chunk.data)));
    } else if Ascii(nextChunkID) == "LIST" {
      var chunk :- ParseListChunk(reader);
      return Ok(output.(info := Some(Entries(chunk.chunks))));
    } else {
      // an unknown identifier: skip it
      var skipped := reader.ReadArray(4);
      return Ok(output);
    }
  }

  method ParseWavDataStream(reader: Reader) returns (r: Result<Wave>)
    requires reader.Valid() && !reader.exhausted
    modifies reader
    ensures reader.Valid()
    ensures Outcome(r, reader.offset) == WaveAt(reader.bytes, old(reader.offset))
    ensures r.Ok? ==> !reader.exhausted
  {
    var riff :- ParseRiffChunk(reader);
    if riff.formType != "WAVE" {
      return Err(UnsupportedFormat);
    }
    var format :- ParseFormatChunk(reader);
    var sub :- ParseSubChunk(reader);
    return Ok(Wave(format.format, sub.data, sub.info));
  }

  /** `parse(bytes)`: a reader over the whole file and `parseWAVDataStream`; the status it
      reports after a successful parse is always "Finished reading.", since the scan only
      stops at the end of the buffer. */
  method Parse(bytes: seq<byte>) returns (r: Result<Wave>, status: string)
    ensures WaveAt(bytes, 0).Ok? ==> r == Ok(WaveAt(bytes, 0).value.value)
    ensures WaveAt(bytes, 0).Err? ==> r == Err(WaveAt(bytes, 0).error)
    ensures r.Ok? ==> status == "Finished reading."
  {
    var reader := new Reader(bytes);
    r := ParseWavDataStream(reader);
    status := reader.Status();
  }
}
