/** The ZIP container as `zip/zip.js` reads it (PKWARE APPNOTE.TXT): the backward scan for the
    end of central directory record, the central directory headers, the local file headers and
    the data descriptors, each described as a function of the buffer and the offset the cursor
    stands at, and the archive walk that strings them together. */
module ZipGrammar {
  import opened Bytes
  import opened Utilities
  import opened LeReader

  // ---------------------------------------------------------------- signatures and tables

  /** `toUint32(array)`: the first four bytes, little-endian. */
  function ToUint32(bytes: seq<byte>): (v: nat)
    requires |bytes| >= 4
    ensures v < 0x1_0000_0000
  {
    LeUint(bytes[..4])
  }

  const CENTRAL_DIRECTORY_SIGNATURE: nat := ToUint32([0x50, 0x4b, 0x01, 0x02])
  const DATA_DESCRIPTOR_SIGNATURE: nat := ToUint32([0x50, 0x4b, 0x07, 0x08])
  const END_OF_CENTRAL_DIRECTORY_SIGNATURE: nat := ToUint32([0x50, 0x4b, 0x05, 0x06])
  const LOCAL_FILE_HEADER_SIGNATURE: nat := ToUint32([0x50, 0x4b, 0x03, 0x04])

  /** Four bytes read as a little-endian 32-bit number match a signature built by `toUint32`
      exactly when they are the signature's bytes, so comparing numbers compares the magic. */
  lemma SignatureBytes(b: seq<byte>, p: int, magic: seq<byte>)
    requires Fits(p, 4, |b|) && |magic| == 4
    ensures U32(b, p) == ToUint32(magic) <==> b[p..p + 4] == magic
  {
    var s := b[p..p + 4];
    FieldsAreLeUint(b, p);
    assert magic[..4] == magic;
    if U32(b, p) == ToUint32(magic) {
      LeBytesOfLeUint(s);
      LeBytesOfLeUint(magic);
    }
  }

  /** `COMPRESSION_METHODS`, with `None` for its `RESERVED` (null) slots. */
  const COMPRESSION_METHODS: seq<Option<string>> := [
    Some("no compression"),
    Some("shrunk"),
    Some("reduced with compression factor 1"),
    Some("reduced with compression factor 2"),
    Some("reduced with compression factor 3"),
    Some("reduced with compression factor 4"),
    Some("imploded"),
    None,
    Some("deflated"),
    Some("enhanced deflated"),
    Some("PKWare DCL imploded"),
    None,
    Some("compressed using BZIP2"),
    None,
    Some("LZMA"),
    None,
    None,
    None,
    Some("compressed using IBM TERSE"),
    Some("IBM LZ77 z")
  ]

  /** What `COMPRESSION_METHODS[compression]` selects: a slot of the table, or the `undefined`
      past its end. The entry keeps the slot and `MethodName` reads the table, so that parsing a
      header never has to spell the strings out. */
  datatype CompressionMethod = Listed(index: nat) | Unlisted

  /** `COMPRESSION_METHODS[compression]`. */
  function CompressionMethodOf(code: nat): CompressionMethod
  {
    if code < |COMPRESSION_METHODS| then Listed(code) else Unlisted
  }

  /** The string the lookup yields; a reserved slot and the `undefined` past the end hold none. */
  function MethodName(m: CompressionMethod): Option<string>
  {
    match m
    case Listed(i) => if i < |COMPRESSION_METHODS| then COMPRESSION_METHODS[i] else None
    case Unlisted => None
  }

  /** An unknown method is not an error: past the table the lookup is `undefined`, six slots
      of the table are `RESERVED`, and the others name a method. */
  lemma CompressionMethodTable(code: nat)
    ensures CompressionMethodOf(code) == Unlisted <==> code >= 20
    ensures MethodName(CompressionMethodOf(code)).None? <==> code >= 20 || code in {7, 11, 13, 15, 16, 17}
    ensures code == 0 ==> MethodName(CompressionMethodOf(code)) == Some("no compression")
    ensures code == 3 ==> MethodName(CompressionMethodOf(code)) == Some("reduced with compression factor 2")
    ensures code == 8 ==> MethodName(CompressionMethodOf(code)) == Some("deflated")
  {
  }

  const VERSION_MADE_BY: seq<string> := [
    "MS-DOS and OS/2 (FAT / VFAT / FAT32 file systems)",
    "Amiga",
    "OpenVMS",
    "UNIX",
    "VM/CMS",
    "Atari ST",
    "OS/2 H.P.F.S.",
    "Macintosh",
    "Z-System",
    "CP/M",
    "Windows NTFS",
    "MVS (OS/390 - Z/OS)",
    "VSE",
    "Acorn Risc",
    "VFAT",
    "alternate MVS",
    "BeOS",
    "Tandem",
    "OS/400",
    "OS/X (Darwin)"
  ]

  /** What `VERSION_MADE_BY[host] || 'unknown'` selects: a slot of the table or the fallback;
      `HostName` gives the string. */
  datatype HostSystem = Host(index: nat) | UnknownHost

  /** A slot of the table exactly for the codes it covers, holding that code. */
  function VersionMadeBy(host: byte): (h: HostSystem)
    ensures h.UnknownHost? <==> host >= |VERSION_MADE_BY|
    ensures h.Host? ==> h.index == host && HostName(h) == VERSION_MADE_BY[host]
  {
    if host < |VERSION_MADE_BY| then Host(host) else UnknownHost
  }

  function HostName(h: HostSystem): string
  {
    match h
    case Host(i) => if i < |VERSION_MADE_BY| then VERSION_MADE_BY[i] else "unknown"
    case UnknownHost => "unknown"
  }

  /** No name in the table is "unknown", so the fallback is reported exactly for the codes
      past the table. */
  lemma VersionMadeByTable(host: byte)
    ensures VersionMadeBy(host) == UnknownHost <==> host >= 20
    ensures HostName(VersionMadeBy(host)) == "unknown" <==> host >= 20
    ensures host < 20 ==> HostName(VersionMadeBy(host)) == VERSION_MADE_BY[host]
    ensures host == 3 ==> HostName(VersionMadeBy(host)) == "UNIX"
  {
  }

  /** The two halves of the "version made by" field (section 4.4.2 of APPNOTE.TXT): the
      specification version and the host system. */
  datatype MadeBy = MadeBy(versionMadeBy: HostSystem, zipSpecificationVersion: byte)

  /** What `parseCentralDirectory` makes of the field: its first byte is taken as the host and
      the second as the specification version, so, read as a little-endian 16-bit number, the
      host comes from the lower byte and the specification version from the upper byte. */
  function MadeByAsWritten(field: seq<byte>): (m: MadeBy)
    requires |field| == 2
    ensures m.versionMadeBy == VersionMadeBy(LeUint(field) % 256)
    ensures m.zipSpecificationVersion == LeUint(field) / 256
  {
    LeUint2(field);
    MadeBy(VersionMadeBy(field[0]), field[1])
  }

  /** The field as section 4.4.2 of APPNOTE.TXT lays it out: the lower byte, which comes first,
      is the specification version, and the upper byte names the host system. Read as a
      little-endian 16-bit number, the host is its upper byte and the version its lower byte. */
  function MadeByField(field: seq<byte>): (m: MadeBy)
    requires |field| == 2
    ensures m.versionMadeBy == VersionMadeBy(LeUint(field) / 256)
    ensures m.zipSpecificationVersion == LeUint(field) % 256
  {
    LeUint2(field);
    MadeBy(VersionMadeBy(field[1]), field[0])
  }

  /** An archive written on UNIX by a tool that follows version 3.0 of the specification
      stores [30, 3]; the reading as written reports an unknown host and version 3. */
  lemma MadeByAsWrittenSwapsBytes()
    ensures MadeByAsWritten([30, 3]) == MadeBy(UnknownHost, 3)
    ensures HostName(MadeByAsWritten([30, 3]).versionMadeBy) == "unknown"
    ensures MadeByField([30, 3]) == MadeBy(Host(3), 30)
    ensures HostName(MadeByField([30, 3]).versionMadeBy) == "UNIX"
  {
  }

  // ---------------------------------------------------------------- MS-DOS date and time

  datatype DosDate = DosDate(day: nat, month: nat, year: nat)
  datatype DosTime = DosTime(hours: nat, minutes: nat, seconds: nat)

  /** `fromMSDOSToDate(date, time)` without the JavaScript `Date` it builds. */
  datatype Timestamp = Timestamp(date: DosDate, time: DosTime)

  /** `parseMSDOSDate`: day in bits 0-4, month in bits 5-8, years since 1980 in bits 9-15.
      Each field fits its bits, and a 16-bit word gives a year before 2108. */
  function ParseMsDosDate(uint16: nat): (d: DosDate)
    ensures d.day < 32 && d.month < 16 && d.year >= 1980
    ensures uint16 < 0x1_0000 ==> d.year < 1980 + 128
  {
    DosDate(day := uint16 % 32, month := (uint16 / 32) % 16, year := uint16 / 512 + 1980)
  }

  /** `parseMSDOSTime`: seconds halved in bits 0-4, minutes in bits 5-10, hours in 11-15.
      The seconds are even and below 64, the minutes below 64, and a 16-bit word gives an hour
      below 32. */
  function ParseMsDosTime(uint16: nat): (t: DosTime)
    ensures t.seconds < 64 && t.seconds % 2 == 0 && t.minutes < 64
    ensures uint16 < 0x1_0000 ==> t.hours < 32
  {
    DosTime(hours := uint16 / 2048, minutes := (uint16 / 32) % 64, seconds := (uint16 % 32) * 2)
  }

  /** The packing the two decoders undo. */
  function EncodeMsDosDate(d: DosDate): nat
    requires d.year >= 1980
  {
    d.day + 32 * d.month + 512 * (d.year - 1980)
  }

  function EncodeMsDosTime(t: DosTime): nat
  {
    t.seconds / 2 + 32 * t.minutes + 2048 * t.hours
  }

  /** Every 16-bit field is the packing of the date it decodes to, and every date whose
      fields fit their bits decodes from its packing. */
  lemma MsDosDateRoundTrip(uint16: nat, d: DosDate)
    requires d.day < 32 && d.month < 16 && d.year >= 1980
    ensures EncodeMsDosDate(ParseMsDosDate(uint16)) == uint16
    ensures ParseMsDosDate(EncodeMsDosDate(d)) == d
  {
    var q := uint16 / 32;
    assert uint16 == uint16 % 32 + 32 * q;
    assert q == q % 16 + 16 * (q / 16);
    assert uint16 / 512 == q / 16;
    var e := EncodeMsDosDate(d);
    var y := d.year - 1980;
    assert e == d.day + 32 * (d.month + 16 * y);
    assert e % 32 == d.day && e / 32 == d.month + 16 * y;
    assert (d.month + 16 * y) % 16 == d.month;
    assert e / 512 == (e / 32) / 16 == y;
  }

  /** The same for times: the seconds, being halved, must be even. */
  lemma MsDosTimeRoundTrip(uint16: nat, t: DosTime)
    requires t.seconds < 64 && t.seconds % 2 == 0 && t.minutes < 64
    ensures EncodeMsDosTime(ParseMsDosTime(uint16)) == uint16
    ensures ParseMsDosTime(EncodeMsDosTime(t)) == t
  {
    var q := uint16 / 32;
    assert uint16 == uint16 % 32 + 32 * q;
    assert q == q % 64 + 64 * (q / 64);
    assert uint16 / 2048 == q / 64;
    var e := EncodeMsDosTime(t);
    assert e == t.seconds / 2 + 32 * (t.minutes + 64 * t.hours);
    assert e % 32 == t.seconds / 2 && e / 32 == t.minutes + 64 * t.hours;
    assert (t.minutes + 64 * t.hours) % 64 == t.minutes;
    assert e / 2048 == (e / 32) / 64 == t.hours;
  }

  // ---------------------------------------------------------------- records

  /** The text of `n` bytes at `p`: `getBytes(n).map(toASCII).join('')`. */
  function TextAt(b: seq<byte>, p: int, n: nat): string
    requires Fits(p, n, |b|)
  {
    Ascii(b[p..p + n])
  }

  datatype CentralEntry = CentralEntry(
    compressedSize: nat,
    compressionMethod: CompressionMethod,
    crc: nat,
    diskStart: nat,
    externalAttributes: nat,
    extra: seq<byte>,
    fileComments: string,
    filename: string,
    flags: nat,
    internalAttributes: nat,
    modificationTime: Timestamp,
    offsetOfLocalHeader: nat,
    uncompressedSize: nat,
    versionMadeBy: HostSystem,
    versionNeeded: nat,
    zipSpecificationVersion: byte)

  datatype DataDescriptor = DataDescriptor(compressedSize: nat, crc: nat, uncompressedSize: nat)

  datatype EndRecord = EndRecord(
    centralDirectoryOffset: nat,
    centralDirectorySize: nat,
    comment: string,
    commentLength: nat,
    diskEntries: nat,
    diskNumber: nat,
    diskNumberOfCentralDirectory: nat,
    totalEntries: nat)

  datatype LocalHeader = LocalHeader(
    compressedSize: nat,
    compressionMethod: CompressionMethod,
    crc: nat,
    dataDescriptor: bool,
    encrypted: bool,
    extraField: seq<byte>,
    fileName: string,
    modificationTime: Timestamp,
    uncompressedSize: nat,
    version: nat)

  datatype ZipFile = ZipFile(data: seq<byte>, dataDescriptor: Option<DataDescriptor>, header: LocalHeader)

  datatype Archive = Archive(centralDirectory: seq<CentralEntry>, files: seq<ZipFile>)

  /** Whether the end of central directory signature sits at `p`. */
  predicate EndSignatureAt(b: seq<byte>, p: int)
  {
    Fits(p, 4, |b|) && U32(b, p) == END_OF_CENTRAL_DIRECTORY_SIGNATURE
  }

  /** `findEndOfCentralDirectoryRecord` from position `p` down: the first position where the
      signature sits, or none when the scan would read before the start. */
  function EndOfCentralDirectoryFrom(b: seq<byte>, p: int): (r: Option<nat>)
    requires p + 4 <= |b|
    ensures r.Some? ==> r.value <= p
    decreases p + 1
  {
    if p < 0 then None
    else if U32(b, p) == END_OF_CENTRAL_DIRECTORY_SIGNATURE then Some(p)
    else EndOfCentralDirectoryFrom(b, p - 1)
  }

  /** The scan finds the signature nearest to `p`, and it finds none only when there is none
      at or below `p`. */
  lemma {:induction false} EndOfCentralDirectoryIsLast(b: seq<byte>, p: int)
    requires p + 4 <= |b|
    ensures var r := EndOfCentralDirectoryFrom(b, p);
      && (r.Some? ==> EndSignatureAt(b, r.value) && forall q :: r.value < q <= p ==> !EndSignatureAt(b, q))
      && (r.None? ==> forall q :: q <= p ==> !EndSignatureAt(b, q))
    decreases p + 1
  {
    if p >= 0 && U32(b, p) != END_OF_CENTRAL_DIRECTORY_SIGNATURE {
      EndOfCentralDirectoryIsLast(b, p - 1);
    }
  }

  /** `parseEndOfCentralDirectoryRecord`, at the offset just past the signature. */
  function EndRecordAt(b: seq<byte>, o: int): (r: Result<Placed<EndRecord>>)
    ensures r.Ok? ==> 0 <= o && o + 18 <= r.value.end <= |b|
    ensures r.Err? ==> r.error == RangeError
  {
    if !Fits(o, 18, |b|) then Err(RangeError)
    else
      var commentLength := U16(b, o + 16);
      if !Fits(o + 18, commentLength, |b|) then Err(RangeError)
      else
        Ok(Placed(EndRecord(
          centralDirectoryOffset := U32(b, o + 12),
          centralDirectorySize := U32(b, o + 8),
          comment := TextAt(b, o + 18, commentLength),
          commentLength := commentLength,
          diskEntries := U16(b, o + 4),
          diskNumber := U16(b, o),
          diskNumberOfCentralDirectory := U16(b, o + 2),
          totalEntries := U16(b, o + 6)), o + 18 + commentLength))
  }

  /** The 42 bytes of fixed fields that follow a central directory signature, as read. */
  datatype CentralFixed = CentralFixed(
    madeBy: seq<byte>,
    versionNeeded: nat,
    flags: nat,
    compression: nat,
    modTime: nat,
    modDate: nat,
    crc: nat,
    compressedSize: nat,
    uncompressedSize: nat,
    nameLength: nat,
    extraLength: nat,
    commentLength: nat,
    diskStart: nat,
    internalAttributes: nat,
    externalAttributes: nat,
    offsetOfLocalHeader: nat)

  /** The fixed fields at `p`, in the order `parseCentralDirectory` reads them. */
  function CentralFixedAt(b: seq<byte>, p: int): (f: CentralFixed)
    requires Fits(p, 42, |b|)
    ensures |f.madeBy| == 2
  {
    CentralFixed(
      madeBy := b[p..p + 2],
      versionNeeded := U16(b, p + 2),
      flags := U16(b, p + 4),
      compression := U16(b, p + 6),
      modTime := U16(b, p + 8),
      modDate := U16(b, p + 10),
      crc := U32(b, p + 12),
      compressedSize := U32(b, p + 16),
      uncompressedSize := U32(b, p + 20),
      nameLength := U16(b, p + 24),
      extraLength := U16(b, p + 26),
      commentLength := U16(b, p + 28),
      diskStart := U16(b, p + 30),
      internalAttributes := U16(b, p + 32),
      externalAttributes := U32(b, p + 34),
      offsetOfLocalHeader := U32(b, p + 38))
  }

  /** The object `parseCentralDirectory` returns, from its fixed fields and the variable parts. */
  function CentralEntryOf(f: CentralFixed, filename: seq<byte>, extra: seq<byte>, comment: string): CentralEntry
    requires |f.madeBy| == 2
  {
    var madeBy := MadeByField(f.madeBy);
    CentralEntry(
      compressedSize := f.compressedSize,
      compressionMethod := CompressionMethodOf(f.compression),
      crc := f.crc,
      diskStart := f.diskStart,
      externalAttributes := f.externalAttributes,
      extra := extra,
      fileComments := comment,
      filename := Ascii(filename),
      flags := f.flags,
      internalAttributes := f.internalAttributes,
      modificationTime := Timestamp(ParseMsDosDate(f.modDate), ParseMsDosTime(f.modTime)),
      offsetOfLocalHeader := f.offsetOfLocalHeader,
      uncompressedSize := f.uncompressedSize,
      versionMadeBy := madeBy.versionMadeBy,
      versionNeeded := f.versionNeeded,
      zipSpecificationVersion := madeBy.zipSpecificationVersion)
  }

  /** `parseCentralDirectory`: the signature is checked first, then 42 bytes of fixed fields
      and the file name, extra field and comment whose lengths they give. */
  function CentralEntryAt(b: seq<byte>, o: int): (r: Result<Placed<CentralEntry>>)
    ensures r.Ok? ==> 0 <= o && o + 46 <= r.value.end <= |b|
    ensures r.Err? ==> r.error == RangeError || r.error == BadSignature
  {
    if !Fits(o, 4, |b|) then Err(RangeError)
    else if U32(b, o) != CENTRAL_DIRECTORY_SIGNATURE then Err(BadSignature)
    else CentralBodyAt(b, o + 4)
  }

  /** What follows the signature: 42 bytes of fixed fields, then the variable parts. */
  function CentralBodyAt(b: seq<byte>, p: int): (r: Result<Placed<CentralEntry>>)
    requires 0 <= p
    ensures r.Ok? ==> p + 42 <= r.value.end <= |b|
    ensures r.Err? ==> r.error == RangeError
  {
    if !Fits(p, 42, |b|) then Err(RangeError)
    else CentralVariableAt(b, p + 42, CentralFixedAt(b, p))
  }

  /** The file name, extra field and comment that follow the fixed fields `f` at `p`, and the
      entry they complete. */
  function CentralVariableAt(b: seq<byte>, p: int, f: CentralFixed): (r: Result<Placed<CentralEntry>>)
    requires 0 <= p && |f.madeBy| == 2
    ensures r.Ok? ==> p <= r.value.end <= |b|
    ensures r.Err? ==> r.error == RangeError
  {
    var extra := p + f.nameLength;
    var comment := extra + f.extraLength;
    if !Fits(p, f.nameLength + f.extraLength + f.commentLength, |b|) then Err(RangeError)
    else
      Ok(Placed(CentralEntryOf(f, b[p..extra], b[extra..comment], TextAt(b, comment, f.commentLength)),
                comment + f.commentLength))
  }

  /** The 26 bytes of fixed fields that follow a local file header signature, as read. */
  datatype LocalFixed = LocalFixed(
    version: nat,
    flags: nat,
    compression: nat,
    modTime: nat,
    modDate: nat,
    crc: nat,
    compressedSize: nat,
    uncompressedSize: nat,
    nameLength: nat,
    extraLength: nat)

  /** The fixed fields at `p`, in the order `parseLocalFileHeader` reads them. */
  function LocalFixedAt(b: seq<byte>, p: int): LocalFixed
    requires Fits(p, 26, |b|)
  {
    LocalFixed(
      version := U16(b, p),
      flags := U16(b, p + 2),
      compression := U16(b, p + 4),
      modTime := U16(b, p + 6),
      modDate := U16(b, p + 8),
      crc := U32(b, p + 10),
      compressedSize := U32(b, p + 14),
      uncompressedSize := U32(b, p + 18),
      nameLength := U16(b, p + 22),
      extraLength := U16(b, p + 24))
  }

  /** The object `parseLocalFileHeader` returns: bit 0 of the flags marks encryption and bit 3
      a trailing data descriptor. */
  function LocalHeaderOf(f: LocalFixed, fileName: seq<byte>, extraField: seq<byte>): LocalHeader
  {
    LocalHeader(
      compressedSize := f.compressedSize,
      compressionMethod := CompressionMethodOf(f.compression),
      crc := f.crc,
      dataDescriptor := Bit(f.flags, 3) == 1,
      encrypted := Bit(f.flags, 0) == 1,
      extraField := extraField,
      fileName := Ascii(fileName),
      modificationTime := Timestamp(ParseMsDosDate(f.modDate), ParseMsDosTime(f.modTime)),
      uncompressedSize := f.uncompressedSize,
      version := f.version)
  }

  /** `parseLocalFileHeader`: the signature, 26 bytes of fixed fields, the file name and the
      extra field. */
  function LocalHeaderAt(b: seq<byte>, o: int): (r: Result<Placed<LocalHeader>>)
    ensures r.Ok? ==> 0 <= o && o + 30 <= r.value.end <= |b|
    ensures r.Err? ==> r.error == RangeError || r.error == BadSignature
  {
    if !Fits(o, 4, |b|) then Err(RangeError)
    else if U32(b, o) != LOCAL_FILE_HEADER_SIGNATURE then Err(BadSignature)
    else LocalBodyAt(b, o + 4)
  }

  /** What follows the signature: 26 bytes of fixed fields, the file name and the extra field. */
  function LocalBodyAt(b: seq<byte>, p: int): (r: Result<Placed<LocalHeader>>)
    requires 0 <= p
    ensures r.Ok? ==> p + 26 <= r.value.end <= |b|
    ensures r.Err? ==> r.error == RangeError
  {
    if !Fits(p, 26, |b|) then Err(RangeError)
    else
      var f := LocalFixedAt(b, p);
      var name := p + 26;
      var extra := name + f.nameLength;
      if !Fits(name, f.nameLength + f.extraLength, |b|) then Err(RangeError)
      else Ok(Placed(LocalHeaderOf(f, b[name..extra], b[extra..extra + f.extraLength]), extra + f.extraLength))
  }

  /** `parseDataDescriptor`: the signature and three 32-bit fields. */
  function DataDescriptorAt(b: seq<byte>, o: int): (r: Result<Placed<DataDescriptor>>)
    ensures r.Ok? ==> 0 <= o && r.value.end == o + 16 <= |b|
    ensures r.Err? ==> r.error == RangeError || r.error == BadSignature
  {
    if !Fits(o, 4, |b|) then Err(RangeError)
    else if U32(b, o) != DATA_DESCRIPTOR_SIGNATURE then Err(BadSignature)
    else if !Fits(o, 16, |b|) then Err(RangeError)
    else Ok(Placed(DataDescriptor(U32(b, o + 8), U32(b, o + 4), U32(b, o + 12)), o + 16))
  }

  // ---------------------------------------------------------------- the archive walk

  /** The central directory loop: entries are parsed while the offset is below `limit`, each
      pushed after the ones in `acc`. */
  function CentralDirectoryFrom(b: seq<byte>, o: int, limit: int, acc: seq<CentralEntry>): (r: Result<seq<CentralEntry>>)
    ensures r.Err? ==> r.error == RangeError || r.error == BadSignature
    decreases limit - o, 1
  {
    if o >= limit then Ok(acc) else ContinueFrom(b, o, limit, acc)
  }

  /** The central directory loop below its limit: the entry at `o` is pushed and the walk
      goes on from its end. */
  function ContinueFrom(b: seq<byte>, o: int, limit: int, acc: seq<CentralEntry>): (r: Result<seq<CentralEntry>>)
    requires o < limit
    ensures r.Err? ==> r.error == RangeError || r.error == BadSignature
    decreases limit - o, 0
  {
    var next :- NextEntryAt(b, o, acc);
    CentralDirectoryFrom(b, next.end, limit, next.value)
  }

  /** One turn of the central directory loop below its limit: an entry that fails fails the
      whole walk, one that is read is pushed and the walk goes on from its end. */
  lemma CentralDirectoryStep(b: seq<byte>, o: int, limit: int, acc: seq<CentralEntry>)
    requires o < limit
    ensures NextEntryAt(b, o, acc).Err? ==> CentralDirectoryFrom(b, o, limit, acc) == Err(NextEntryAt(b, o, acc).error)
    ensures NextEntryAt(b, o, acc).Ok? ==>
      CentralDirectoryFrom(b, o, limit, acc) == CentralDirectoryFrom(b, NextEntryAt(b, o, acc).value.end, limit, NextEntryAt(b, o, acc).value.value)
  {
  }

  /** One turn of the central directory loop: the entry at `o` pushed onto `acc`. */
  function NextEntryAt(b: seq<byte>, o: int, acc: seq<CentralEntry>): (r: Result<Placed<seq<CentralEntry>>>)
    ensures r.Ok? ==> o + 46 <= r.value.end && |r.value.value| == |acc| + 1
    ensures r.Err? ==> r.error == RangeError || r.error == BadSignature
  {
    var entry :- CentralEntryAt(b, o);
    Ok(Placed(acc + [entry.value], entry.end))
  }

  /** The number of bytes of file data: the local `compressedSize`, or the central one when
      the local header leaves it at 0 (as it does when a data descriptor follows). */
  function PayloadLength(header: LocalHeader, entry: CentralEntry): nat
  {
    if header.compressedSize != 0 then header.compressedSize else entry.compressedSize
  }

  /** One turn of the files loop: the local header at the entry's offset, the data, and the
      data descriptor when bit 3 of the flags asks for one. */
  function FileAt(b: seq<byte>, entry: CentralEntry): (r: Result<ZipFile>)
    ensures r.Err? ==> r.error == RangeError || r.error == BadSignature
  {
    var header :- LocalHeaderAt(b, entry.offsetOfLocalHeader);
    FileDataAt(b, header.value, header.end, entry)
  }

  /** The rest of the files loop, once the local header is read and ends at `p`. */
  function FileDataAt(b: seq<byte>, header: LocalHeader, p: int, entry: CentralEntry): (r: Result<ZipFile>)
    ensures r.Err? ==> r.error == RangeError || r.error == BadSignature
  {
    var length := PayloadLength(header, entry);
    if !Fits(p, length, |b|) then Err(RangeError)
    else
      var data := b[p..p + length];
      if header.dataDescriptor then
        var descriptor :- DataDescriptorAt(b, p + length);
        Ok(ZipFile(data, Some(descriptor.value), header))
      else
        Ok(ZipFile(data, None, header))
  }

  function FilesAt(b: seq<byte>, entries: seq<CentralEntry>): (r: Result<seq<ZipFile>>)
    ensures r.Ok? ==> |r.value| == |entries|
    ensures r.Err? ==> r.error == RangeError || r.error == BadSignature
  {
    if entries == [] then Ok([])
    else
      var file :- FileAt(b, entries[0]);
      var rest :- FilesAt(b, entries[1..]);
      Ok([file] + rest)
  }

  /** `parseZIPDataStream`: find the end record, then read the archive it describes. */
  function ZipAt(b: seq<byte>): (r: Result<Archive>)
    ensures r.Ok? ==> |r.value.files| == |r.value.centralDirectory|
    ensures r.Err? ==> r.error == RangeError || r.error == BadSignature
  {
    match EndOfCentralDirectoryFrom(b, |b| - 22)
    case None => Err(RangeError)
    case Some(p) => ArchiveAt(b, p + 4)
  }

  /** The end record at `o` and the archive it describes. */
  function ArchiveAt(b: seq<byte>, o: int): (r: Result<Archive>)
    ensures r.Ok? ==> |r.value.files| == |r.value.centralDirectory|
    ensures r.Err? ==> r.error == RangeError || r.error == BadSignature
  {
    var end :- EndRecordAt(b, o);
    ArchiveFrom(b, end.value)
  }

  /** The central directory an end record points to, and each entry's file. */
  function ArchiveFrom(b: seq<byte>, end: EndRecord): (r: Result<Archive>)
    ensures r.Ok? ==> |r.value.files| == |r.value.centralDirectory|
    ensures r.Err? ==> r.error == RangeError || r.error == BadSignature
  {
    var start := end.centralDirectoryOffset;
    var central :- CentralDirectoryFrom(b, start, start + end.centralDirectorySize, []);
    var files :- FilesAt(b, central);
    Ok(Archive(central, files))
  }

  // ---------------------------------------------------------------- what the records hold

  /** The end record is read exactly when its 18 bytes of fixed fields and the comment they
      announce lie in the buffer; the comment is that many bytes of text, after which the
      cursor stops. */
  lemma EndRecordShape(b: seq<byte>, o: int)
    ensures EndRecordAt(b, o).Ok? <==> Fits(o, 18, |b|) && Fits(o + 18, U16(b, o + 16), |b|)
    ensures var r := EndRecordAt(b, o);
      r.Ok? ==>
        && r.value.value.commentLength == U16(b, o + 16)
        && r.value.end == o + 18 + r.value.value.commentLength
        && r.value.value.comment == Ascii(b[o + 18..r.value.end])
        && r.value.value.centralDirectorySize == U32(b, o + 8)
        && r.value.value.centralDirectoryOffset == U32(b, o + 12)
  {
  }

  /** A local file header is read exactly when its signature matches and its 30 bytes, file
      name and extra field lie in the buffer; a mismatched signature throws. Bit 0 of the flags
      says whether the file is encrypted and bit 3 whether a data descriptor follows. */
  lemma LocalHeaderShape(b: seq<byte>, o: int)
    ensures LocalHeaderAt(b, o).Ok? <==>
      && Fits(o, 30, |b|) && U32(b, o) == LOCAL_FILE_HEADER_SIGNATURE
      && Fits(o + 30, U16(b, o + 26) + U16(b, o + 28), |b|)
    ensures Fits(o, 4, |b|) && U32(b, o) != LOCAL_FILE_HEADER_SIGNATURE ==> LocalHeaderAt(b, o) == Err(BadSignature)
    ensures var r := LocalHeaderAt(b, o);
      r.Ok? ==>
        var (h, name) := (r.value.value, o + 30);
        && h.encrypted == (U16(b, o + 6) % 2 == 1)
        && h.dataDescriptor == (U16(b, o + 6) / 8 % 2 == 1)
        && h.compressedSize == U32(b, o + 18)
        && h.fileName == Ascii(b[name..name + U16(b, o + 26)])
        && h.extraField == b[name + U16(b, o + 26)..r.value.end]
        && r.value.end == name + U16(b, o + 26) + U16(b, o + 28)
  {
    if LocalHeaderAt(b, o).Ok? {
      var flags := U16(b, o + 6);
      assert Pow2(0) == 1 && Pow2(3) == 8;
      assert Bit(flags, 0) == flags % 2 && Bit(flags, 3) == flags / 8 % 2;
    }
  }

  /** A central directory header is read exactly when its signature matches and its 46 bytes,
      file name, extra field and comment lie in the buffer; a mismatched signature throws. The
      host comes from the second byte of "version made by" and the specification version from
      the first. */
  lemma CentralEntryShape(b: seq<byte>, o: int)
    ensures CentralEntryAt(b, o).Ok? <==>
      && Fits(o, 46, |b|) && U32(b, o) == CENTRAL_DIRECTORY_SIGNATURE
      && Fits(o + 46, U16(b, o + 28) + U16(b, o + 30) + U16(b, o + 32), |b|)
    ensures Fits(o, 4, |b|) && U32(b, o) != CENTRAL_DIRECTORY_SIGNATURE ==> CentralEntryAt(b, o) == Err(BadSignature)
    ensures var r := CentralEntryAt(b, o);
      r.Ok? ==>
        var (e, name) := (r.value.value, o + 46);
        && e.versionMadeBy == VersionMadeBy(b[o + 5]) && e.zipSpecificationVersion == b[o + 4]
        && e.compressedSize == U32(b, o + 20)
        && e.offsetOfLocalHeader == U32(b, o + 42)
        && e.filename == Ascii(b[name..name + U16(b, o + 28)])
        && r.value.end == name + U16(b, o + 28) + U16(b, o + 30) + U16(b, o + 32)
  {
  }

  /** The file data is the `PayloadLength` bytes after the local header; a data descriptor is
      read right after them exactly when the header's flag asks for one. */
  lemma FileDataShape(b: seq<byte>, header: LocalHeader, p: int, entry: CentralEntry)
    ensures var (r, length) := (FileDataAt(b, header, p, entry), PayloadLength(header, entry));
      && (r.Ok? <==> Fits(p, length, |b|) && (header.dataDescriptor ==> DataDescriptorAt(b, p + length).Ok?))
      && (r.Ok? ==>
            && r.value.header == header
            && r.value.data == b[p..p + length]
            && (r.value.dataDescriptor.Some? <==> header.dataDescriptor)
            && (header.dataDescriptor ==> DataDescriptorAt(b, p + length).value.value == r.value.dataDescriptor.value))
  {
  }

  /** `files[i]` is the file that the i-th central directory entry points to: the walk over
      the entries succeeds exactly when every entry's file is read. */
  lemma FilesPaired(b: seq<byte>, entries: seq<CentralEntry>)
    ensures FilesAt(b, entries).Ok? <==> forall i :: 0 <= i < |entries| ==> FileAt(b, entries[i]).Ok?
    ensures FilesAt(b, entries).Ok? ==>
      forall i :: 0 <= i < |entries| ==> FileAt(b, entries[i]) == Ok(FilesAt(b, entries).value[i])
  {
    if FilesAt(b, entries).Ok? {
      forall i | 0 <= i < |entries|
        ensures FileAt(b, entries[i]) == Ok(FilesAt(b, entries).value[i])
      {
        FileOfEntry(b, entries, i);
      }
    } else if forall i :: 0 <= i < |entries| ==> FileAt(b, entries[i]).Ok? {
      FilesSucceed(b, entries);
    }
  }

  /** The i-th file of a successful walk is the i-th entry's file. */
  lemma {:induction false} FileOfEntry(b: seq<byte>, entries: seq<CentralEntry>, i: nat)
    requires FilesAt(b, entries).Ok? && i < |entries|
    ensures FileAt(b, entries[i]) == Ok(FilesAt(b, entries).value[i])
    decreases i
  {
    if i > 0 {
      FileOfEntry(b, entries[1..], i - 1);
      assert entries[1..][i - 1] == entries[i];
    }
  }

  /** The walk succeeds when every entry's file is read. */
  lemma {:induction false} FilesSucceed(b: seq<byte>, entries: seq<CentralEntry>)
    requires forall i :: 0 <= i < |entries| ==> FileAt(b, entries[i]).Ok?
    ensures FilesAt(b, entries).Ok?
    decreases |entries|
  {
    if entries != [] {
      assert FileAt(b, entries[0]).Ok?;
      forall i | 0 <= i < |entries[1..]|
        ensures FileAt(b, entries[1..][i]).Ok?
      {
        assert entries[1..][i] == entries[i + 1];
      }
      FilesSucceed(b, entries[1..]);
    }
  }

  /** The central directory walk keeps the entries it started with in front, and adds one per
      header it reads while below its limit. */
  lemma {:induction false} CentralDirectoryKeeps(b: seq<byte>, o: int, limit: int, acc: seq<CentralEntry>)
    ensures var r := CentralDirectoryFrom(b, o, limit, acc);
      r.Ok? ==> acc <= r.value && (o < limit ==> |r.value| > |acc|)
    decreases limit - o
  {
    if o < limit {
      var next := NextEntryAt(b, o, acc);
      if next.Ok? {
        CentralDirectoryKeeps(b, next.value.end, limit, next.value.value);
        assert acc <= next.value.value;
      }
    }
  }
}
