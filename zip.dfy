/** The parsers of `zip/zip.js` on the little-endian cursor: each one reads field by field the
    way the source does and is proved to produce what the matching function of `ZipGrammar`
    describes for the buffer and the offset it started at. */
module Zip {
  import opened Bytes
  import opened Utilities
  import opened LeReader
  import opened ZipGrammar

  /** `findEndOfCentralDirectoryRecord`: read four bytes at `length - 22`, then step back one
      byte at a time (a four-byte read, then five back) until they are the signature. The loop
      only ends on the signature, so a result is always `true`; a scan that runs past the start
      of the buffer fails in the read. */
  method FindEndOfCentralDirectoryRecord(reader: Reader) returns (r: Result<bool>)
    modifies reader
    ensures var found := EndOfCentralDirectoryFrom(reader.buffer, |reader.buffer| - 22);
      && (r.Ok? <==> found.Some?)
      && (r.Ok? ==> r.value && reader.offset == found.value + 4)
      && (r.Err? ==> r.error == RangeError)
  {
    ghost var b := reader.buffer;
    reader.offset := |reader.buffer| - 22;
    ghost var p := reader.offset;
    var bytes :- reader.GetUint32();
    while bytes != END_OF_CENTRAL_DIRECTORY_SIGNATURE
      invariant Fits(p, 4, |b|) && bytes == U32(b, p) && reader.offset == p + 4
      invariant EndOfCentralDirectoryFrom(b, |b| - 22) == EndOfCentralDirectoryFrom(b, p)
      decreases p
    {
      reader.offset := reader.offset - 5;
      p := p - 1;
      bytes :- reader.GetUint32();
    }
    return Ok(bytes == END_OF_CENTRAL_DIRECTORY_SIGNATURE);
  }

  method ParseEndOfCentralDirectoryRecord(reader: Reader) returns (r: Result<EndRecord>)
    modifies reader
    ensures Landed(r, reader.offset) == EndRecordAt(reader.buffer, old(reader.offset))
  {
    var diskNumber :- reader.GetUint16();
    var diskNumberOfCentralDirectory :- reader.GetUint16();
    var diskEntries :- reader.GetUint16();
    var totalEntries :- reader.GetUint16();
    var centralDirectorySize :- reader.GetUint32();
    var centralDirectoryOffset :- reader.GetUint32();
    var commentLength :- reader.GetUint16();
    var comment := "";
    if commentLength != 0 {
      var bytes :- reader.GetBytes(commentLength);
      comment := Ascii(bytes);
    }
    return Ok(EndRecord(
      centralDirectoryOffset := centralDirectoryOffset,
      centralDirectorySize := centralDirectorySize,
      comment := comment,
      commentLength := commentLength,
      diskEntries := diskEntries,
      diskNumber := diskNumber,
      diskNumberOfCentralDirectory := diskNumberOfCentralDirectory,
      totalEntries := totalEntries));
  }

  /** `parseCentralDirectory`, with the two bytes of "version made by" read the way section
      4.4.2 of APPNOTE.TXT lays them out (see `MadeByField`). */
  method ParseCentralDirectory(reader: Reader) returns (r: Result<CentralEntry>)
    modifies reader
    ensures Landed(r, reader.offset) == CentralEntryAt(reader.buffer, old(reader.offset))
  {
    var signature :- reader.GetUint32();
    if signature != CENTRAL_DIRECTORY_SIGNATURE {
      return Err(BadSignature);
    }
    r := ReadCentralBody(reader);
  }

  /** The reads of `parseCentralDirectory` after the signature. */
  method ReadCentralBody(reader: Reader) returns (r: Result<CentralEntry>)
    requires 0 <= reader.offset
    modifies reader
    ensures Landed(r, reader.offset) == CentralBodyAt(reader.buffer, old(reader.offset))
  {
    var fixed :- ReadCentralFixed(reader);
    r := ReadCentralVariable(reader, fixed);
  }

  /** The reads of `parseCentralDirectory` after the fixed fields: the file name, the extra
      field and, when its length is not 0, the comment. */
  method ReadCentralVariable(reader: Reader, fixed: CentralFixed) returns (r: Result<CentralEntry>)
    requires 0 <= reader.offset && |fixed.madeBy| == 2
    modifies reader
    ensures Landed(r, reader.offset) == CentralVariableAt(reader.buffer, old(reader.offset), fixed)
  {
    var filename :- reader.GetBytes(fixed.nameLength);
    var extra :- reader.GetBytes(fixed.extraLength);
    var fileComments := "";
    if fixed.commentLength != 0 {
      var bytes :- reader.GetBytes(fixed.commentLength);
      fileComments := Ascii(bytes);
    }
    return Ok(CentralEntryOf(fixed, filename, extra, fileComments));
  }

  /** The fixed-width reads of `parseCentralDirectory`, from "version made by" to the offset
      of the local header. */
  method ReadCentralFixed(reader: Reader) returns (r: Result<CentralFixed>)
    modifies reader
    ensures var (o, b) := (old(reader.offset), reader.buffer);
      && (r.Ok? <==> Fits(o, 42, |b|))
      && (r.Ok? ==> reader.offset == o + 42 && r.value == CentralFixedAt(b, o))
      && (r.Err? ==> r.error == RangeError)
  {
    var head :- ReadCentralHead(reader);
    var (madeBy, versionNeeded, flags, compression, modTime, modDate) := head;
    var sizes :- ReadSizes(reader);
    var (crc, compressedSize, uncompressedSize) := sizes;
    var tail :- ReadCentralTail(reader);
    var (nameLength, extraLength, commentLength, diskStart, internalAttributes,
         externalAttributes, offsetOfLocalHeader) := tail;
    return Ok(CentralFixed(
      madeBy := madeBy,
      versionNeeded := versionNeeded,
      flags := flags,
      compression := compression,
      modTime := modTime,
      modDate := modDate,
      crc := crc,
      compressedSize := compressedSize,
      uncompressedSize := uncompressedSize,
      nameLength := nameLength,
      extraLength := extraLength,
      commentLength := commentLength,
      diskStart := diskStart,
      internalAttributes := internalAttributes,
      externalAttributes := externalAttributes,
      offsetOfLocalHeader := offsetOfLocalHeader));
  }

  /** The reads of `parseCentralDirectory` after the signature: "version made by", version
      needed, flags, compression, time and date. */
  method ReadCentralHead(reader: Reader) returns (r: Result<(seq<byte>, nat, nat, nat, nat, nat)>)
    modifies reader
    ensures var (o, b) := (old(reader.offset), reader.buffer);
      && (r.Ok? <==> Fits(o, 12, |b|))
      && (r.Ok? ==> reader.offset == o + 12 && r.value == (b[o..o + 2], U16(b, o + 2), U16(b, o + 4),
                                                          U16(b, o + 6), U16(b, o + 8), U16(b, o + 10)))
      && (r.Err? ==> r.error == RangeError)
  {
    var madeBy :- reader.GetBytes(2);
    var versionNeeded :- reader.GetUint16();
    var flags :- reader.GetUint16();
    var compression :- reader.GetUint16();
    var modTime :- reader.GetUint16();
    var modDate :- reader.GetUint16();
    return Ok((madeBy, versionNeeded, flags, compression, modTime, modDate));
  }

  /** The three 32-bit fields every header repeats: CRC-32, compressed and uncompressed size. */
  method ReadSizes(reader: Reader) returns (r: Result<(nat, nat, nat)>)
    modifies reader
    ensures var (o, b) := (old(reader.offset), reader.buffer);
      && (r.Ok? <==> Fits(o, 12, |b|))
      && (r.Ok? ==> reader.offset == o + 12 && r.value == (U32(b, o), U32(b, o + 4), U32(b, o + 8)))
      && (r.Err? ==> r.error == RangeError)
  {
    var crc :- reader.GetUint32();
    var compressedSize :- reader.GetUint32();
    var uncompressedSize :- reader.GetUint32();
    return Ok((crc, compressedSize, uncompressedSize));
  }

  /** The reads of `parseCentralDirectory` after the sizes: three lengths, the disk, the
      attributes and the offset of the local header. */
  method ReadCentralTail(reader: Reader) returns (r: Result<(nat, nat, nat, nat, nat, nat, nat)>)
    modifies reader
    ensures var (o, b) := (old(reader.offset), reader.buffer);
      && (r.Ok? <==> Fits(o, 18, |b|))
      && (r.Ok? ==> reader.offset == o + 18 && r.value == (U16(b, o), U16(b, o + 2), U16(b, o + 4),
                                                          U16(b, o + 6), U16(b, o + 8), U32(b, o + 10),
                                                          U32(b, o + 14)))
      && (r.Err? ==> r.error == RangeError)
  {
    var filenameLength :- reader.GetUint16();
    var extraLength :- reader.GetUint16();
    var fileCommentLength :- reader.GetUint16();
    var diskStart :- reader.GetUint16();
    var internalAttributes :- reader.GetUint16();
    var externalAttributes :- reader.GetUint32();
    var offsetOfLocalHeader :- reader.GetUint32();
    return Ok((filenameLength, extraLength, fileCommentLength, diskStart, internalAttributes,
               externalAttributes, offsetOfLocalHeader));
  }

  method ParseDataDescriptor(reader: Reader) returns (r: Result<DataDescriptor>)
    modifies reader
    ensures Landed(r, reader.offset) == DataDescriptorAt(reader.buffer, old(reader.offset))
  {
    var signature :- reader.GetUint32();
    if signature != DATA_DESCRIPTOR_SIGNATURE {
      return Err(BadSignature);
    }
    var sizes :- ReadSizes(reader);
    var (crc, compressedSize, uncompressedSize) := sizes;
    return Ok(DataDescriptor(compressedSize, crc, uncompressedSize));
  }

  method ParseLocalFileHeader(reader: Reader) returns (r: Result<LocalHeader>)
    modifies reader
    ensures Landed(r, reader.offset) == LocalHeaderAt(reader.buffer, old(reader.offset))
  {
    var signature :- reader.GetUint32();
    if signature != LOCAL_FILE_HEADER_SIGNATURE {
      return Err(BadSignature);
    }
    r := ReadLocalBody(reader);
  }

  /** The reads of `parseLocalFileHeader` after the signature. */
  method ReadLocalBody(reader: Reader) returns (r: Result<LocalHeader>)
    requires 0 <= reader.offset
    modifies reader
    ensures Landed(r, reader.offset) == LocalBodyAt(reader.buffer, old(reader.offset))
  {
    var fixed :- ReadLocalFixed(reader);
    var fileName :- reader.GetBytes(fixed.nameLength);
    var extraField :- reader.GetBytes(fixed.extraLength);
    return Ok(LocalHeaderOf(fixed, fileName, extraField));
  }

  /** The fixed-width reads of `parseLocalFileHeader`, from the version to the extra field's
      length. */
  method ReadLocalFixed(reader: Reader) returns (r: Result<LocalFixed>)
    modifies reader
    ensures var (o, b) := (old(reader.offset), reader.buffer);
      && (r.Ok? <==> Fits(o, 26, |b|))
      && (r.Ok? ==> reader.offset == o + 26 && r.value == LocalFixedAt(b, o))
      && (r.Err? ==> r.error == RangeError)
  {
    var head :- ReadLocalHead(reader);
    var (version, flags, compression, modTime, modDate) := head;
    var sizes :- ReadSizes(reader);
    var (crc, compressedSize, uncompressedSize) := sizes;
    var nameLength :- reader.GetUint16();
    var extraLength :- reader.GetUint16();
    return Ok(LocalFixed(
      version := version,
      flags := flags,
      compression := compression,
      modTime := modTime,
      modDate := modDate,
      crc := crc,
      compressedSize := compressedSize,
      uncompressedSize := uncompressedSize,
      nameLength := nameLength,
      extraLength := extraLength));
  }

  /** The reads of `parseLocalFileHeader` after the signature: version, flags, compression,
      time and date. */
  method ReadLocalHead(reader: Reader) returns (r: Result<(nat, nat, nat, nat, nat)>)
    modifies reader
    ensures var (o, b) := (old(reader.offset), reader.buffer);
      && (r.Ok? <==> Fits(o, 10, |b|))
      && (r.Ok? ==> reader.offset == o + 10 && r.value == (U16(b, o), U16(b, o + 2), U16(b, o + 4),
                                                          U16(b, o + 6), U16(b, o + 8)))
      && (r.Err? ==> r.error == RangeError)
  {
    var version :- reader.GetUint16();
    var flags :- reader.GetUint16();
    var compressionMethod :- reader.GetUint16();
    var modTime :- reader.GetUint16();
    var modDate :- reader.GetUint16();
    return Ok((version, flags, compressionMethod, modTime, modDate));
  }

  /** One turn of the `centralDirectory.map` of `parseZIPDataStream`: jump to the entry's
      local header, take the data after it, then the data descriptor if the flags announce
      one. */
  method ParseFile(reader: Reader, entry: CentralEntry) returns (r: Result<ZipFile>)
    modifies reader
    ensures r == FileAt(reader.buffer, entry)
  {
    reader.offset := entry.offsetOfLocalHeader;
    var header :- ParseLocalFileHeader(reader);
    r := ReadFileData(reader, header, entry);
  }

  /** The reads of the files loop after the local header: the data and, when the header asks
      for one, the data descriptor. */
  method ReadFileData(reader: Reader, header: LocalHeader, entry: CentralEntry) returns (r: Result<ZipFile>)
    modifies reader
    ensures r == FileDataAt(reader.buffer, header, old(reader.offset), entry)
  {
    var length := if header.compressedSize != 0 then header.compressedSize else entry.compressedSize;
    if !Fits(reader.offset, length, |reader.buffer|) {
      return Err(RangeError);
    }
    var data := reader.buffer[reader.offset..reader.offset + length];
    reader.offset := reader.offset + length;
    if header.dataDescriptor {
      var descriptor :- ParseDataDescriptor(reader);
      return Ok(ZipFile(data, Some(descriptor), header));
    }
    return Ok(ZipFile(data, None, header));
  }

  /** `parseZIPDataStream`. Its last statement assigns `reader.buffer.bytesLength`, which
      does not exist, to the offset; the model leaves the offset where the walk ended. */
  method ParseZipDataStream(reader: Reader) returns (r: Result<Archive>)
    modifies reader
    ensures r == ZipAt(reader.buffer)
  {
    var found :- FindEndOfCentralDirectoryRecord(reader);
    r := ParseArchive(reader);
  }

  /** The rest of `parseZIPDataStream`, from just past the end record's signature. */
  method ParseArchive(reader: Reader) returns (r: Result<Archive>)
    modifies reader
    ensures r == ArchiveAt(reader.buffer, old(reader.offset))
  {
    ghost var (b, o) := (reader.buffer, reader.offset);
    var endRecord :- ParseEndOfCentralDirectoryRecord(reader);
    assert ArchiveAt(b, o) == ArchiveFrom(b, endRecord);
    var centralDirectory :- ParseCentralDirectoryEntries(reader, endRecord.centralDirectoryOffset,
                                                         endRecord.centralDirectorySize);
    var files :- ParseFiles(reader, centralDirectory);
    return Ok(Archive(centralDirectory, files));
  }

  /** The first loop of `parseZIPDataStream`: from the directory's offset, parse entries
      while the offset is below the directory's end. */
  method ParseCentralDirectoryEntries(reader: Reader, start: nat, size: nat) returns (r: Result<seq<CentralEntry>>)
    modifies reader
    ensures r == CentralDirectoryFrom(reader.buffer, start, start + size, [])
  {
    var limit := start + size;
    reader.offset := start;
    var centralDirectory: seq<CentralEntry> := [];
    while reader.offset < limit
      invariant CentralDirectoryFrom(reader.buffer, start, limit, []) == CentralDirectoryFrom(reader.buffer, reader.offset, limit, centralDirectory)
      decreases limit - reader.offset
    {
      ghost var here := reader.offset;
      var next := ParseNextEntry(reader, centralDirectory);
      assert Landed(next, reader.offset) == NextEntryAt(reader.buffer, here, centralDirectory);
      CentralDirectoryStep(reader.buffer, here, limit, centralDirectory);
      if next.Err? {
        return Err(next.error);
      }
      centralDirectory := next.value;
    }
    return Ok(centralDirectory);
  }

  /** The body of the first loop: parse the entry at the offset and push it. */
  method ParseNextEntry(reader: Reader, centralDirectory: seq<CentralEntry>) returns (r: Result<seq<CentralEntry>>)
    modifies reader
    ensures Landed(r, reader.offset) == NextEntryAt(reader.buffer, old(reader.offset), centralDirectory)
  {
    var entry :- ParseCentralDirectory(reader);
    return Ok(centralDirectory + [entry]);
  }

  /** The second loop of `parseZIPDataStream`: the file of each entry, in order. */
  method ParseFiles(reader: Reader, centralDirectory: seq<CentralEntry>) returns (r: Result<seq<ZipFile>>)
    modifies reader
    ensures r == FilesAt(reader.buffer, centralDirectory)
  {
    ghost var b := reader.buffer;
    var files: seq<ZipFile> := [];
    PrefixedNothing(FilesAt(b, centralDirectory));
    for index := 0 to |centralDirectory|
      invariant FilesAt(b, centralDirectory) == Prefixed(files, FilesAt(b, centralDirectory[index..]))
    {
      var file :- ParseFile(reader, centralDirectory[index]);
      assert centralDirectory[index..][1..] == centralDirectory[index + 1..];
      PrefixedTwice(files, [file], FilesAt(b, centralDirectory[index + 1..]));
      files := files + [file];
    }
    assert centralDirectory[|centralDirectory|..] == [];
    assert files + [] == files;
    return Ok(files);
  }

  /** `parse(bytes)`: a little-endian reader over the bytes and `parseZIPDataStream`. */
  method Parse(bytes: seq<byte>) returns (r: Result<Archive>)
    ensures r == ZipAt(bytes)
  {
    var reader := new Reader(bytes);
    r := ParseZipDataStream(reader);
  }
}
