# streams: byte-stream parsers, modelled in Dafny

This project models the parsing core of the `streams` repository. That core is a set of
browser-side readers for binary formats:

- `Reader.js` is a byte cursor. It holds a buffer, an offset that `read` and `rewind` move, and a
  generator that yields single bytes.
- `gif/gif.js` parses a GIF89a data stream (header, logical screen, colour tables, extensions,
  images, sub-blocks) and decompresses image data with variable-width LZW.
- `wav/wav.js` parses a RIFF/WAVE file: the RIFF chunk, the `fmt ` chunk, `data` and LIST/INFO
  chunks, skipping unknown identifiers.
- `zip/zip.js` locates the end-of-central-directory record of a ZIP archive, walks the central
  directory, reads each local file header, its data and its data descriptor, and holds the
  DEFLATE pieces: the bit trie, the fixed Huffman code, the dynamic block header and the code
  generation.
- `ff7-model-viewer/model-viewer.js` (lines 38 to 502) parses Final Fantasy VII BCX models
  (skeleton, parts, polygons, animations) and TDB texture banks (4-bit images, AB5G5R5 palettes).
- `utilities.js` holds the formatting helpers: human-readable sizes, hex, binary and ASCII.

How the model is organised:

- Each parser that moves a cursor is a `method` on a reader `class` (`ByteReader.Reader` for
  `Reader.js`, `LeReader.Reader` for the little-endian cursor that the ZIP and model-viewer code
  use).
- Each method is proved equal to a pure specification function of the buffer and the start
  offset (`HeaderAt`, `WaveAt`, `CentralEntryAt`, `ModelAt`, ...). Each such function follows
  the parser read by read, so it fails with the same error at the same point. There are two
  exceptions, both recorded under "## Findings": the GIF image-data buffer and the ZIP
  "version made by" split. For those, the functions compute the corrected result, and
  "## Left out" names the members concerned.
- The lemmas then state, in closed form, what each function accepts, where it stops and what it
  returns. Those are the properties the formats promise: field offsets, little-endian values,
  bit fields, round trips and the layout of record tables.
- Throws are values of the `Bytes.Error` enumeration inside a `Result`.

## Model

| member | source | states |
|---|---|---|
| Bytes.LeUint | zip/zip.js:12-14 | the little-endian value of n bytes is below 256^n |
| Bytes.LeUintOfLeBytes | zip/zip.js:12-14 | writing a value below 256^n as n little-endian bytes and reading them back gives the value |
| Bytes.LeBytesOfLeUint | wav/wav.js:43-49 | reading n bytes little-endian and writing the value back as n bytes gives the same bytes |
| Bytes.LeUint1 | ff7-model-viewer/model-viewer.js:61 | a one-byte little-endian value is that byte |
| Bytes.LeUint2 | wav/wav.js:43-45 | a two-byte little-endian value is the first byte plus 256 times the second |
| Bytes.LeUint4 | wav/wav.js:47-49 | a four-byte little-endian value weighs the bytes 1, 256, 65536 and 16777216 |
| Bytes.Int8 | ff7-model-viewer/model-viewer.js:60 | a signed byte lies in [-128, 128) and is negative exactly when the unsigned byte is 128 or more |
| Bytes.Int8Wraps | ff7-model-viewer/model-viewer.js:60 | a signed byte is its unsigned byte modulo 256 (two's complement) |
| Bytes.Int16 | wav/wav.js:39-41 | a signed 16-bit value lies in [-32768, 32768) and is negative exactly when the unsigned value is 32768 or more |
| Bytes.Int16Wraps | wav/wav.js:39-41 | a signed 16-bit value is its unsigned value modulo 65536 |
| ByteReader.Reader.constructor | Reader.js:10-12 | a new reader holds the bytes at offset 0 and has a fresh generator |
| ByteReader.Reader.Read | Reader.js:28-41 | for n > 1, the n bytes at the offset, or a RangeError outside the buffer with the offset unchanged; for n <= 1, the next byte from the generator, or `undefined` from a negative offset; once the generator meets the end it throws "End of buffer" from then on |
| ByteReader.Reader.Rewind | Reader.js:43-45 | the offset goes back by n and nothing else changes |
| ByteReader.Reader.ReadByte | Reader.js:38-40 | a single-byte read yields the byte at the offset and advances by one, or throws at the end of the buffer and exhausts the generator |
| ByteReader.Reader.ReadArray | Reader.js:31-36 | an array read of n > 1 bytes yields exactly the slice at the offset and advances by n, or fails with a RangeError when the slice does not fit |
| ByteReader.Reader.Status | Reader.js:47-54 | the status is "Finished reading." exactly when the offset is at the end; otherwise it names the offset in decimal and what remains |
| Text.DigitValue | utilities.js:27 | a digit character has a value below 16 whose digit is that character |
| Text.Radix | utilities.js:27 | `toString(base)` of a natural number is a non-empty run of base digits with no leading zero |
| Text.ValueOfRadix | utilities.js:27 | reading back the digits of `toString(base)` gives the number |
| Text.ValueOfLeadingZeros | utilities.js:27 | zeros added by `padStart` keep the digits valid and do not change their value |
| Text.ZerosHaveNoValue | utilities.js:27 | a run of zeros reads as 0 |
| Text.IntToString | utilities.js:27 | the result starts with "-" exactly when the number is negative; the digits after the sign have no leading zero and read back as the magnitude |
| Text.Decimal | Reader.js:50 | a natural number prints in base 10 |
| Text.PadStart | utilities.js:27 | `padStart(width, c)` keeps the string at the end, preceded by enough copies of c to reach the width |
| Utilities.FormatBytesToHumanReadable | utilities.js:5-15 | sizes from 1 GiB up are returned as the raw number; below that the suffix is bytes, kB or MB by range, and the amount is the size divided by the unit, rounded down (1 to 1023 for kB and MB) |
| Utilities.PrefixedDigits | utilities.js:26-32 | a prefix followed by at least `width` digits of the number in the base, with no leading zero beyond the padding, which read back as the number |
| Utilities.ToHex | utilities.js:30-32 | "0x" then hex digits that read back as the number, padded to at least two digits by default |
| Utilities.ToBin | utilities.js:26-28 | "0b" then binary digits that read back as the number, padded to at least eight digits by default |
| Utilities.ToAscii | utilities.js:22-24 | the one-character string whose code is the byte |
| Utilities.Ascii | wav/wav.js:56 | `map(toASCII).join('')` has one character per byte, each with the byte's code |
| GifGrammar.ToUnsigned | gif/gif.js:28-30 | a pair of bytes is read little-endian, below 65536 |
| GifGrammar.HeaderAt | gif/gif.js:235-244 | the header is accepted exactly when 6 bytes remain, the signature is "GIF" and the version is two digits and a lower-case letter; a short buffer is a RangeError and another signature a BadSignature |
| GifGrammar.AsciiIsGif | gif/gif.js:236-240 | the signature text is "GIF" exactly when the bytes are 71, 73, 70 |
| GifGrammar.ScreenFieldsRepack | gif/gif.js:332-336 | the four packed fields of the logical screen descriptor (flag, colour resolution, sort flag, table size) give back the packed byte |
| GifGrammar.ImageFieldsRepack | gif/gif.js:294-299 | the five packed fields of the image descriptor give back the packed byte |
| GifGrammar.ControlFieldsRepack | gif/gif.js:189-193 | the reserved bits, disposal method, user-input flag and transparency flag of the graphic control extension give back the packed byte |
| GifGrammar.ScreenDescriptorAt | gif/gif.js:328-351 | the logical screen descriptor is accepted exactly when 7 bytes remain and ends 7 bytes on, with each field taken from its byte or bit range |
| GifGrammar.ColorEntriesAt | gif/gif.js:90-93 | n colour entries are read exactly when 3n bytes remain; entry i is the three bytes at 3i |
| GifGrammar.ColorTableAt | gif/gif.js:85-96 | size -1 means no table and no read; otherwise the table holds 2^(size+1) entries when they fit |
| GifGrammar.LogicalScreenAt | gif/gif.js:313-326 | the global colour table follows the descriptor and has 2^(size+1) entries when the flag is set, none otherwise |
| GifGrammar.SubBlocksAt | gif/gif.js:250-262 | every sub-block read holds the bytes its size announces, after its size byte, and the walk ends inside the buffer |
| GifGrammar.SubBlocksFrom | gif/gif.js:250-262 | a walk that starts on a non-terminator size byte reads blocks that lie in the buffer |
| GifGrammar.SubBlocksCons | gif/gif.js:250-262 | a block that holds its bytes in front of later blocks keeps the walk's invariant |
| GifGrammar.SubBlocksEnd | gif/gif.js:250-262 | a successful walk stops just after a zero terminator byte |
| GifGrammar.SubBlocksStep | gif/gif.js:250-262 | one turn of the walk: the read's error, the TypeError of `map` over a one-byte read in text blocks, or the block followed by the rest of the walk |
| GifGrammar.TotalCons | gif/gif.js:261 | the running total adds each block's length |
| GifGrammar.PayloadLength | gif/gif.js:265-271 | the concatenated image data is as long as the blocks' total |
| GifGrammar.Payload | gif/gif.js:265-271 | the corrected buffer: each sub-block's bytes after the previous ones; its length and layout are stated by `PayloadLength` and `PayloadIsConcatenation` |
| GifGrammar.PayloadAsWritten | gif/gif.js:265-271 | the buffer as written, a zero for a one-byte sub-block; `PayloadAsWrittenAgrees` and `PayloadAsWrittenLosesOneByteBlocks` state how it differs |
| GifGrammar.PayloadIsConcatenation | gif/gif.js:265-271 | block i's bytes sit in the concatenated buffer at the sum of the lengths before it |
| GifGrammar.PayloadPrefix | gif/gif.js:265-271 | the buffer's prefix up to the first n blocks' total is the concatenation of those n blocks |
| GifGrammar.PayloadLast | gif/gif.js:265-271 | the buffer of all blocks is that of all but the last, followed by the last block's bytes |
| GifGrammar.PayloadAsWrittenAgrees | gif/gif.js:265-271 | the copy as written equals the intended concatenation when no block is a one-byte read |
| GifGrammar.PayloadAsWrittenLosesOneByteBlocks | gif/gif.js:265-271 | with the block [1, 7], `buffer.set` of a bare number copies nothing and the image data reads [0] instead of [7] |
| GifGrammar.Spans | gif/gif.js:270 | the blocks kept after `delete block.data` are each block's length and offset, in order |
| GifGrammar.ImageDataAt | gif/gif.js:246-278 | the LZW minimum code size is the first byte, and the buffer together with one size byte per block and the two framing bytes spans the whole read; the buffer is the corrected concatenation of every block (`Payload`), not the copy as written, which loses one-byte blocks |
| GifGrammar.ExtensionAt | gif/gif.js:36-50 | an extension header is accepted exactly when it is the introducer followed by the expected label |
| GifGrammar.GraphicControlAt | gif/gif.js:179-214 | accepted exactly when the eight bytes are introducer, label, size 4 and a zero terminator; another size is a BadBlockSize; the fields come from the packed byte, the little-endian delay and the index byte |
| GifGrammar.PlainTextAt | gif/gif.js:353-398 | accepted only with block size 12 (another size is a BadBlockSize); the grid, cell and colour fields come from their bytes and text sub-blocks follow |
| GifGrammar.PlainTextBodyAt | gif/gif.js:361-398 | the plain-text body ends after its 12 fixed bytes and its sub-blocks |
| GifGrammar.RectangleAt | gif/gif.js:289-292 | four little-endian 16-bit values are read exactly when 8 bytes remain |
| GifGrammar.CommentAt | gif/gif.js:98-120 | the comment's blocks are text blocks, each with its length and offset, and the read ends inside the buffer |
| GifGrammar.ApplicationDataAt | gif/gif.js:66-70 | the scan stops on the first 0x21 byte and returns everything before it |
| GifGrammar.ApplicationDataScan | gif/gif.js:66-75 | the scan succeeds exactly when a 0x21 byte lies ahead, and then returns the bytes up to the first one |
| GifGrammar.ApplicationAt | gif/gif.js:52-83 | block size 11 (another size is a BadBlockSize), an 8-character identifier, a 3-byte authentication code, then the data up to the next 0x21, which it never contains; the read ends just past that 0x21, or, when the data ended with a block terminator, one byte earlier so that the 0x21 is read again |
| GifGrammar.ImageDescriptorAt | gif/gif.js:280-311 | accepted exactly when 10 bytes start with the image separator; another first byte is ExpectedImageSeparator; the fields come from their bytes and bits |
| GifGrammar.TableBasedImageAt | gif/gif.js:400-415 | a descriptor, then a local colour table of 2^(size+1) entries when its flag is set, then image data |
| GifGrammar.RenderingAt | gif/gif.js:216-233 | a rendering block is plain text exactly when it starts with 0x21 and an image exactly when it starts with 0x2C; any other byte is ExpectedImageOrExtension |
| GifGrammar.GraphicBlockAt | gif/gif.js:169-177 | a graphic block carries a graphic control extension exactly when it starts with 0x21 |
| GifGrammar.DataBlockAt | gif/gif.js:127-155 | dispatch on the next two bytes: an image separator starts a graphic block without control; an unknown label is UnknownLabel |
| GifGrammar.DataAt | gif/gif.js:122-158 | the data loop stops only within two bytes of the end of the buffer, and reads nothing when two bytes or fewer remain |
| GifGrammar.TrailerAt | gif/gif.js:417-424 | the trailer is the single byte 0x3B |
| GifGrammar.GifAt | gif/gif.js:160-167 | header, logical screen, data blocks and trailer, each from where the previous one ended; `GifEndsAtTrailer` states where an accepted stream ends |
| GifGrammar.GifEndsAtTrailer | gif/gif.js:160-167 | a stream that parses ends on the trailer byte, which is the last or next-to-last byte of the buffer |
| Gif.AssertExtension | gif/gif.js:36-50 | checks the introducer and label as `ExtensionAt` does, advancing by two on success |
| Gif.ParseHeader | gif/gif.js:235-244 | returns the header `HeaderAt` describes and stops where it ends |
| Gif.ParseLogicalScreenDescriptor | gif/gif.js:328-351 | returns what `ScreenDescriptorAt` describes and stops where it ends |
| Gif.ParseColorTable | gif/gif.js:85-96 | the loop reads the table `ColorTableAt` describes |
| Gif.ParseLogicalScreen | gif/gif.js:313-326 | returns what `LogicalScreenAt` describes |
| Gif.ParseSubBlocks | gif/gif.js:250-262 | the loop reads the blocks `SubBlocksAt` describes and stops after the terminator |
| Gif.ReadSubBlock | gif/gif.js:254-262 | one turn of the sub-block loop, as `SubBlocksAt` takes it |
| Gif.ParseImageData | gif/gif.js:246-278 | returns what `ImageDataAt` describes, so its buffer is the corrected concatenation of every block |
| Gif.ParseImageDescriptor | gif/gif.js:280-311 | returns what `ImageDescriptorAt` describes |
| Gif.ReadRectangle | gif/gif.js:289-292 | reads the four 16-bit values `RectangleAt` describes |
| Gif.ParseTableBasedImage | gif/gif.js:400-415 | returns what `TableBasedImageAt` describes |
| Gif.ParseGraphicControlExtension | gif/gif.js:179-214 | returns what `GraphicControlAt` describes |
| Gif.ParsePlainTextExtension | gif/gif.js:353-398 | returns what `PlainTextAt` describes |
| Gif.ParsePlainTextBody | gif/gif.js:361-398 | returns what `PlainTextBodyAt` describes |
| Gif.ParseCommentExtension | gif/gif.js:98-120 | returns what `CommentAt` describes |
| Gif.ParseApplicationExtension | gif/gif.js:52-83 | returns what `ApplicationAt` describes, including the step back |
| Gif.ReadApplicationData | gif/gif.js:66-70 | the scan loop returns what `ApplicationDataAt` describes |
| Gif.ParseGraphicRenderingBlock | gif/gif.js:216-233 | returns what `RenderingAt` describes |
| Gif.ParseGraphicBlock | gif/gif.js:169-177 | returns what `GraphicBlockAt` describes |
| Gif.ParseData | gif/gif.js:122-158 | the loop returns the blocks `DataAt` describes |
| Gif.ParseDataBlock | gif/gif.js:127-155 | one turn of the data loop, as `DataBlockAt` describes |
| Gif.ParseTrailer | gif/gif.js:417-424 | returns what `TrailerAt` describes |
| Gif.ParseGifDataStream | gif/gif.js:160-167 | from offset 0, returns the stream `GifAt` describes |
| GifLzw.InitialTable | gif/gif.js:500-507 | the initial table maps each code below 2^m to its own one-symbol string, followed by the clear and end codes |
| GifLzw.Fill | gif/gif.js:513-523 | `fillBits` takes whole bytes until it holds at least the code width; it reports "must stop" exactly when the buffer cannot supply them, after counting one extra byte |
| GifLzw.FillIsLsbFirst | gif/gif.js:516 | each byte is placed above the bits already held, so the held bits are the stream read least significant bit first |
| GifLzw.LowBits | gif/gif.js:528 | `rest & codeMask` is below 2^width |
| GifLzw.HighBits | gif/gif.js:529 | `rest >>= width` does not grow, and shrinks a non-zero value |
| GifLzw.Extend | gif/gif.js:544-555 | fails exactly when the code lies past the table and there is no previous string; otherwise the string it yields is non-empty |
| GifLzw.ApplyControl | gif/gif.js:532-542 | the clear code restores the initial table, width and empty previous string; the end code stops with the output unchanged |
| GifLzw.ApplyString | gif/gif.js:544-571 | any other code appends its string to the output, extends the table and widens the code when the table fills the width |
| GifLzw.StepKeepsRuns | gif/gif.js:525-574 | one turn keeps the decoder's invariant: widths in (m, 12], a well-formed table, the cursor inside the buffer |
| GifLzw.StepDecreases | gif/gif.js:525-574 | every turn that does not stop decreases a lexicographic measure, so the loop terminates |
| GifLzw.Decode | gif/gif.js:525-574 | the output already produced is a prefix of the final output |
| GifLzw.DecodeUnfolds | gif/gif.js:525-574 | the loop fails with a turn's error, stops with the current output, or goes on from the next state |
| GifLzw.StartIsWf | gif/gif.js:486-496 | the starting state is well formed |
| GifLzw.ExtendKeepsBelow | gif/gif.js:544-555 | extending the table keeps the old entries and only ever adds strings of symbols below 2^m |
| GifLzw.StepKeepsWf | gif/gif.js:525-574 | a turn keeps every string in the table and the output below 2^m |
| GifLzw.DecodeIsBelow | gif/gif.js:525-577 | every decoded symbol is a colour index below 2^m |
| GifLzw.LzwDecode | gif/gif.js:485-577 | the decompressed indices are all below 2^m |
| GifLzw.StepAddsEntry | gif/gif.js:544-555 | a code in the table outputs its string; a code past it outputs the previous string plus its first symbol; the table grows by the previous string plus the new string's first symbol, unless there was no previous string |
| GifLzw.StepControlAndWidth | gif/gif.js:532-571 | the clear code resets; the end code stops; otherwise the width grows by one exactly when it is below 12 and the table has reached 2^width entries |
| GifLzw.CodesAreLsbFirst | gif/gif.js:513-530 | the next code comes from the bytes taken least significant first, above the bits already held |
| GifLzw.TurnGoesOn | gif/gif.js:525-574 | a turn that goes on leaves the final result unchanged |
| GifLzw.DecodeExample | gif/gif.js:485-577 | the bytes [4, 18, 5] with minimum code size 2 (clear, 0, 0, 1, 1, end) decode to [0, 0, 1, 1] |
| GifLzw.FillBits | gif/gif.js:513-523 | the byte loop computes what `Fill` describes |
| GifLzw.AddString | gif/gif.js:544-571 | the table, previous string, output and width after one code, as `Extend` describes |
| GifLzw.Turn | gif/gif.js:525-574 | one turn of the loop computes `Step` and keeps the mask equal to 2^width - 1 |
| GifLzw.TakeCode | gif/gif.js:528-571 | the code extraction and dispatch compute what `Apply` describes, with the mask kept at 2^width - 1 |
| GifLzw.LzwDecompress | gif/gif.js:485-577 | the loop returns what `LzwDecode` describes |
| WavGrammar.ToUint16 | wav/wav.js:43-45 | two bytes read little-endian give a value below 65536, which written back as two bytes gives the same bytes |
| WavGrammar.ToUint32 | wav/wav.js:47-49 | four bytes read little-endian give a value below 2^32, which written back gives the same bytes |
| WavGrammar.ToInt16 | wav/wav.js:39-41 | a signed value in [-32768, 32768), equal to the unsigned one modulo 65536, negative exactly when the high byte is 128 or more |
| WavGrammar.DropZeros | wav/wav.js:104 | `filter(Boolean)` keeps every non-zero byte, in the same number, and no zero |
| WavGrammar.SubBuffer | wav/wav.js:122 | `new Reader(array)` copies an array read; a bare number n instead makes n zero bytes |
| WavGrammar.Entries | wav/wav.js:181-183 | each INFO chunk becomes one `{key: content}` entry, in order |
| WavGrammar.RiffChunkAt | wav/wav.js:145-158 | accepted exactly when 12 bytes remain and the identifier is "RIFF"; the size is little-endian and the form type is text; a short buffer is a RangeError and another identifier a BadChunkId |
| WavGrammar.FormatChunkAt | wav/wav.js:70-99 | a format chunk spans at least its 22 fixed bytes; it fails only on a bad identifier or a short buffer |
| WavGrammar.FormatFieldsAt | wav/wav.js:77-96 | the format fields span at least 14 bytes and fail only with a RangeError |
| WavGrammar.DataChunkAt | wav/wav.js:55-68 | a data chunk ends inside the buffer, after its start |
| WavGrammar.InfoChunkAt | wav/wav.js:101-115 | an INFO sub-chunk ends inside the buffer, after its start |
| WavGrammar.InfoChunksAt | wav/wav.js:129-130 | the INFO loop reads to the end of the sub-buffer |
| WavGrammar.ListChunkAt | wav/wav.js:117-143 | a LIST chunk ends inside the buffer, after its start |
| WavGrammar.SubChunksAt | wav/wav.js:160-197 | the sub-chunk loop reads to the end of the buffer |
| WavGrammar.NextSubChunkAt | wav/wav.js:162-193 | one turn of the loop moves forward |
| WavGrammar.WaveAt | wav/wav.js:199-222 | a file parses only when it starts with a RIFF chunk of form type WAVE followed by a format chunk, whose format it returns, and it is read to the end; a RIFF chunk of another form type is exactly the UnsupportedFormat case |
| WavGrammar.FormatChunkShape | wav/wav.js:70-99 | accepted exactly when the identifier is "fmt " and 22 bytes remain, plus two more for PCM; the fields are little-endian at their offsets; `wBitsPerSample` is present exactly for PCM (tag 1) |
| WavGrammar.DataChunkShape | wav/wav.js:55-68 | accepted exactly when the identifier is "data" and the announced size fits; the data is that many bytes (a bare byte for sizes up to 1) |
| WavGrammar.InfoChunkShape | wav/wav.js:101-115 | accepted exactly when the size is above 1, fits, and the identifier is a known INFO key; sizes 0 and 1 are a TypeError; the content is the text of the non-zero bytes and the key is the dictionary's |
| WavGrammar.ListChunkShape | wav/wav.js:117-143 | a LIST chunk of type INFO reads `size - 4` bytes into a sub-reader and parses INFO chunks from it to its end; another identifier is BadChunkId and another list type UnknownListType |
| WavGrammar.SkipOne | wav/wav.js:189-192 | an unknown chunk identifier is skipped four bytes at a time |
| WavGrammar.UnknownIdsAreSkipped | wav/wav.js:189-192 | a run of unknown identifiers leaves the result as if the loop started after them |
| WavGrammar.LaterChunksReplace | wav/wav.js:168-186 | the chunks met so far affect nothing but the fields no later chunk replaces: success, error and end are the same, and `data` and `info` are either the same or the ones passed in |
| WavGrammar.ShortListChunk | wav/wav.js:122 | a LIST chunk of size 5 or less reads one bare byte: a zero yields an empty INFO list, and anything else fails |
| Wav.ParseRiffChunk | wav/wav.js:145-158 | returns what `RiffChunkAt` describes |
| Wav.ParseFormatChunk | wav/wav.js:70-99 | returns what `FormatChunkAt` describes |
| Wav.ReadFormatFields | wav/wav.js:77-96 | returns what `FormatFieldsAt` describes |
| Wav.ParseDataChunk | wav/wav.js:55-68 | returns what `DataChunkAt` describes |
| Wav.ParseInfoChunk | wav/wav.js:101-115 | returns what `InfoChunkAt` describes |
| Wav.ParseListChunk | wav/wav.js:117-143 | returns what `ListChunkAt` describes, with the INFO loop over a fresh reader |
| Wav.ParseSubChunk | wav/wav.js:160-197 | the loop returns what `SubChunksAt` describes |
| Wav.ParseNextSubChunk | wav/wav.js:162-193 | one turn of the loop, as `NextSubChunkAt` describes |
| Wav.ParseWavDataStream | wav/wav.js:199-222 | returns what `WaveAt` describes |
| Wav.Parse | wav/wav.js:228-236 | returns what `WaveAt` describes from offset 0, and after a success the status is "Finished reading." |
| LeReader.U16 | zip/zip.js:97 | a 16-bit field is below 65536 |
| LeReader.U32 | zip/zip.js:102 | a 32-bit field is below 2^32 |
| LeReader.FieldsAreLeUint | zip/zip.js:97-111 | the 16- and 32-bit getters read their bytes little-endian |
| LeReader.RecordsEnd | ff7-model-viewer/model-viewer.js:58-63 | a successful run of n records of a given stride ends n strides on and holds n records |
| LeReader.RecordAt | ff7-model-viewer/model-viewer.js:58-63 | record i of a run is what the record reader gives at i strides from the start |
| LeReader.RecordFails | ff7-model-viewer/model-viewer.js:58-63 | a run fails when any one of its records fails |
| LeReader.RecordsAt | ff7-model-viewer/model-viewer.js:58-63 | `Array.from({length}).map(...)` over fixed-stride records; `RecordsEnd` and `RecordsLayout` state its length, end and records |
| LeReader.RecordsLayout | ff7-model-viewer/model-viewer.js:58-63 | a run succeeds exactly when every record does, and then holds them in order, ending n strides on |
| LeReader.AllRecordsSucceed | ff7-model-viewer/model-viewer.js:58-63 | a run succeeds when every record does |
| LeReader.RecordsFit | ff7-model-viewer/model-viewer.js:58-63 | a run of fixed-width records succeeds exactly when the last one fits in the buffer |
| LeReader.RunLayout | ff7-model-viewer/model-viewer.js:58-63 | each record of a successful run is the one read at its position |
| LeReader.Reader.constructor | zip/zip.js:425 | a new cursor holds the buffer at offset 0 |
| LeReader.Reader.GetBytes | zip/zip.js:113-114 | `getBytes(n)` returns the n bytes at the offset and advances by n, or fails with a RangeError when they do not fit |
| LeReader.Reader.GetUint8 | ff7-model-viewer/model-viewer.js:61 | `getUint8` returns the byte at the offset and advances by one |
| LeReader.Reader.GetUint16 | zip/zip.js:97 | `getUint16` returns the little-endian value at the offset and advances by two |
| LeReader.Reader.GetUint32 | zip/zip.js:102 | `getUint32` returns the little-endian value at the offset and advances by four |
| LeReader.Reader.GetInt8 | ff7-model-viewer/model-viewer.js:60 | `getInt8` returns the signed byte at the offset |
| LeReader.Reader.GetInt16 | ff7-model-viewer/model-viewer.js:59 | `getInt16` returns the signed little-endian 16-bit value at the offset |
| ZipGrammar.ToUint32 | zip/zip.js:12-14 | four bytes give a value below 2^32 |
| ZipGrammar.SignatureBytes | zip/zip.js:19-22 | a 32-bit field equals a signature constant exactly when its bytes are the signature's bytes |
| ZipGrammar.CompressionMethodTable | zip/zip.js:26-47 | codes 20 and up are outside the table; codes 7, 11, 13, 15, 16 and 17 are reserved (no name); 0, 3 and 8 name no compression, reduced with factor 2 and deflated |
| ZipGrammar.VersionMadeByTable | zip/zip.js:49-70 | hosts 20 and up are "unknown"; others take their table name, with 3 being UNIX |
| ZipGrammar.MadeByAsWrittenSwapsBytes | zip/zip.js:96 | as written, the field [30, 3] (UNIX, specification 3.0) reports an unknown host and specification version 3 |
| ZipGrammar.VersionMadeBy | zip/zip.js:133 | `VERSION_MADE_BY[host] \|\| 'unknown'`: the fallback exactly for codes past the 20-entry table, otherwise the table's name for that code |
| ZipGrammar.MadeByAsWritten | zip/zip.js:96 | the split as written: read as a little-endian number, the host comes from the lower byte and the specification version from the upper byte |
| ZipGrammar.MadeByField | zip/zip.js:96 | the corrected split: the host comes from the upper byte and the specification version from the lower byte of the little-endian field |
| ZipGrammar.ParseMsDosDate | zip/zip.js:213-218 | day below 32, month below 16, year from 1980, and before 2108 for a 16-bit word; `MsDosDateRoundTrip` shows nothing is lost |
| ZipGrammar.ParseMsDosTime | zip/zip.js:220-225 | even seconds below 64, minutes below 64, hours below 32 for a 16-bit word; `MsDosTimeRoundTrip` shows nothing is lost |
| ZipGrammar.MsDosDateRoundTrip | zip/zip.js:213-218 | packing the decoded date gives the word back, and decoding a packed in-range date gives the date back |
| ZipGrammar.MsDosTimeRoundTrip | zip/zip.js:220-225 | the same for the time, with seconds stored halved |
| ZipGrammar.EndOfCentralDirectoryFrom | zip/zip.js:72-82 | the backward search returns a position at or before its start |
| ZipGrammar.EndOfCentralDirectoryIsLast | zip/zip.js:72-82 | the search finds the last end-of-central-directory signature at or before its start, and finds none when there is none |
| ZipGrammar.EndRecordAt | zip/zip.js:152-174 | the end record ends inside the buffer, at least 18 bytes on, and fails only with a RangeError |
| ZipGrammar.EndRecordShape | zip/zip.js:152-174 | read exactly when the fixed fields and the comment they announce fit; the comment is that many bytes of text and the sizes and offset are the little-endian fields |
| ZipGrammar.CentralFixedAt | zip/zip.js:96-111 | the version field is two bytes |
| ZipGrammar.CentralEntryAt | zip/zip.js:90-137 | a central directory header spans at least 46 bytes and fails only with a RangeError or a bad signature; the entry splits "version made by" the corrected way (host from the upper byte) |
| ZipGrammar.CentralBodyAt | zip/zip.js:96-117 | the body after the signature spans at least 42 bytes; the entry splits "version made by" the corrected way |
| ZipGrammar.CentralVariableAt | zip/zip.js:113-117 | the file name, extra field and comment end inside the buffer; the entry splits "version made by" the corrected way |
| ZipGrammar.CentralEntryShape | zip/zip.js:90-137 | read exactly when the signature matches and the 46 bytes and three announced lengths fit; the sizes, offset and name come from their fields; the host is looked up from the field's second (upper) byte and the specification version is its first byte, the corrected split, where the source takes the host from the first byte |
| ZipGrammar.LocalHeaderAt | zip/zip.js:176-211 | a local file header spans at least 30 bytes and fails only with a RangeError or a bad signature |
| ZipGrammar.LocalBodyAt | zip/zip.js:182-194 | the body after the signature spans at least 26 bytes |
| ZipGrammar.LocalHeaderShape | zip/zip.js:176-211 | read exactly when the signature matches and the 30 bytes, name and extra field fit; `encrypted` is bit 0 and `dataDescriptor` bit 3 of the flags |
| ZipGrammar.DataDescriptorAt | zip/zip.js:139-150 | a data descriptor is exactly 16 bytes and fails only with a RangeError or a bad signature |
| ZipGrammar.CentralDirectoryFrom | zip/zip.js:234-241 | the central directory loop fails only with a RangeError or a bad signature |
| ZipGrammar.ContinueFrom | zip/zip.js:239-240 | one more entry, then the rest of the loop |
| ZipGrammar.CentralDirectoryStep | zip/zip.js:234-241 | below the limit, the loop reads one entry and goes on from where it ends |
| ZipGrammar.CentralDirectoryKeeps | zip/zip.js:234-241 | the loop keeps the entries read so far in front and adds at least one while below its limit |
| ZipGrammar.NextEntryAt | zip/zip.js:240 | one turn adds exactly one entry and moves at least 46 bytes |
| ZipGrammar.FileAt | zip/zip.js:245-255 | reading one file fails only with a RangeError or a bad signature |
| ZipGrammar.FileDataAt | zip/zip.js:248-255 | reading the data and descriptor fails only with a RangeError or a bad signature |
| ZipGrammar.FileDataShape | zip/zip.js:248-255 | the data is the `compressedSize` bytes after the local header (the central directory's size when the header says 0); a descriptor follows exactly when flag bit 3 is set |
| ZipGrammar.FilesAt | zip/zip.js:243-256 | one file per central directory entry |
| ZipGrammar.FilesPaired | zip/zip.js:243-256 | the files loop succeeds exactly when every entry's file is read, and file i comes from entry i |
| ZipGrammar.FileOfEntry | zip/zip.js:244-255 | file i of a successful loop is what entry i points to |
| ZipGrammar.FilesSucceed | zip/zip.js:243-256 | the loop succeeds when every entry's file does |
| ZipGrammar.ZipAt | zip/zip.js:227-260 | an archive has as many files as central directory entries |
| ZipGrammar.ArchiveAt | zip/zip.js:231-256 | the same, from the end record on |
| ZipGrammar.ArchiveFrom | zip/zip.js:232-256 | the same, from the central directory on |
| Zip.FindEndOfCentralDirectoryRecord | zip/zip.js:72-82 | the loop stops on the position the backward search finds, four bytes past the signature, and fails with a RangeError when there is none |
| Zip.ParseEndOfCentralDirectoryRecord | zip/zip.js:152-174 | returns what `EndRecordAt` describes |
| Zip.ParseCentralDirectory | zip/zip.js:90-137 | returns what `CentralEntryAt` describes, with the corrected "version made by" split |
| Zip.ReadCentralBody | zip/zip.js:96-117 | returns what `CentralBodyAt` describes, with the corrected "version made by" split |
| Zip.ReadCentralVariable | zip/zip.js:113-117 | returns what `CentralVariableAt` describes, with the corrected "version made by" split |
| Zip.ReadCentralFixed | zip/zip.js:96-111 | reads the 42 bytes of fixed fields when they fit |
| Zip.ReadCentralHead | zip/zip.js:96-101 | reads the version bytes and five 16-bit fields |
| Zip.ReadSizes | zip/zip.js:102-104 | reads the CRC and both sizes |
| Zip.ReadCentralTail | zip/zip.js:105-111 | reads the lengths, disk, attributes and local header offset |
| Zip.ParseDataDescriptor | zip/zip.js:139-150 | returns what `DataDescriptorAt` describes |
| Zip.ParseLocalFileHeader | zip/zip.js:176-211 | returns what `LocalHeaderAt` describes |
| Zip.ReadLocalBody | zip/zip.js:182-194 | returns what `LocalBodyAt` describes |
| Zip.ReadLocalFixed | zip/zip.js:182-191 | reads the 26 bytes of fixed fields when they fit |
| Zip.ReadLocalHead | zip/zip.js:182-186 | reads five 16-bit fields |
| Zip.ParseFile | zip/zip.js:245-255 | returns what `FileAt` describes |
| Zip.ReadFileData | zip/zip.js:248-255 | returns what `FileDataAt` describes |
| Zip.ParseZipDataStream | zip/zip.js:227-260 | returns what `ZipAt` describes |
| Zip.ParseArchive | zip/zip.js:231-256 | returns what `ArchiveAt` describes |
| Zip.ParseCentralDirectoryEntries | zip/zip.js:232-241 | the loop returns what `CentralDirectoryFrom` describes |
| Zip.ParseNextEntry | zip/zip.js:240 | one turn, as `NextEntryAt` describes |
| Zip.ParseFiles | zip/zip.js:243-256 | the loop returns what `FilesAt` describes |
| Zip.Parse | zip/zip.js:424-432 | returns what `ZipAt` describes for the whole file |
| ZipHuffman.Grown | zip/zip.js:351 | `node[side] \|\|= []` keeps a node and puts a new node in place of a missing child; it also replaces any stored value, which the source keeps when it is truthy |
| ZipHuffman.Insert | zip/zip.js:348-360 | inserting a code into a node leaves a node, with a new node for each missing child on the way down |
| ZipHuffman.Lookup | zip/zip.js:414-422 | the only failure is a TypeError, which a lookup starting at a missing node or the end-of-block marker always raises; `InsertFinds` and `InsertKeeps` state what it finds |
| ZipHuffman.InsertFinds | zip/zip.js:348-360 | after inserting a code, looking it up finds its value, and every proper prefix leads to a node |
| ZipHuffman.InsertKeeps | zip/zip.js:348-360 | inserting a code leaves every code that is not its prefix or extension where it was |
| ZipHuffman.Bits | zip/zip.js:370 | the w-bit binary string of a value has length w |
| ZipHuffman.BitsAreBits | zip/zip.js:370 | it is made of '0' and '1' |
| ZipHuffman.BitsPrefix | zip/zip.js:370 | its first k characters are the value shifted right by w - k |
| ZipHuffman.BitsInjective | zip/zip.js:370 | two values below 2^w with the same w-bit string are equal |
| ZipHuffman.BitsOfZero | zip/zip.js:370 | zero prints as all zeros |
| ZipHuffman.PaddedRadixIsBits | zip/zip.js:370 | `toString(2).padStart(w, '0')` of a value below 2^w is its w-bit string |
| ZipHuffman.RadixIsBits | zip/zip.js:379 | `toString(2)` of a value with exactly w bits is its w-bit string |
| ZipHuffman.StaticCodeValue | zip/zip.js:362-412 | each symbol's fixed code value fits its width |
| ZipHuffman.PrefixIsShift | zip/zip.js:348-360 | when one fixed-width bit string is a prefix of another, the shorter value is the longer one shifted right by the difference in widths |
| ZipHuffman.StaticCode | zip/zip.js:362-412 | each symbol's fixed code is a bit string of its width (8, 9, 7 or 8 bits by range) |
| ZipHuffman.StaticCodesApart | zip/zip.js:362-412 | no fixed code is a prefix of another symbol's fixed code |
| ZipHuffman.NoLeadingBitsMatch | zip/zip.js:362-412 | no shorter fixed code equals the leading bits of a longer one |
| ZipHuffman.FixedLengths | zip/zip.js:362-412 | the fixed code has 288 lengths |
| ZipHuffman.FixedCounts | zip/zip.js:362-412 | the fixed lengths count 144 codes of 8 bits, 112 of 9, 24 of 7 and 8 more of 8 |
| ZipHuffman.FixedFirstCodes | zip/zip.js:362-412 | the canonical construction starts every length up to 7 at code 0 |
| ZipHuffman.StaticCodeIsCanonical | zip/zip.js:362-412 | the ranges the tree is built from are the canonical Huffman codes of the fixed lengths of section 3.2.6 of RFC 1951 |
| ZipHuffman.InsertStatic | zip/zip.js:362-412 | inserting symbol n keeps the first n symbols findable and makes symbol n findable |
| ZipHuffman.InsertKeepsFound | zip/zip.js:362-412 | a later insertion keeps an earlier symbol findable |
| ZipHuffman.InsertKeepsPath | zip/zip.js:348-360 | an insertion apart from a code keeps its lookup and the nodes on its path |
| ZipHuffman.InsertKeepsNode | zip/zip.js:348-360 | an insertion keeps a node that is not on its own code |
| ZipHuffman.GenerateStaticHuffmanTree | zip/zip.js:362-412 | the tree finds every one of the 288 symbols under its fixed code |
| ZipHuffman.InsertEightBitLiterals | zip/zip.js:369-373 | the first loop makes literals 0 to 143 findable |
| ZipHuffman.InsertNineBitLiterals | zip/zip.js:377-380 | the second loop makes literals 144 to 255 findable |
| ZipHuffman.InsertSevenBitLengths | zip/zip.js:394-398 | the third loop makes the end of block and lengths 257 to 279 findable |
| ZipHuffman.InsertEightBitLengths | zip/zip.js:402-409 | the fourth loop makes lengths 280 to 287 findable |
| ZipHuffman.Field | zip/zip.js:505-514 | an n-bit field is below 2^n |
| ZipHuffman.StreamBits | zip/zip.js:505-514 | n bits of the stream, least significant first, are below 2^n |
| ZipHuffman.SplitField | zip/zip.js:505-514 | an (n+m)-bit field is its low n bits plus 2^n times the next m bits |
| ZipHuffman.LowAndHighField | zip/zip.js:510-511 | masking keeps the low k bits of a field and shifting leaves the rest |
| ZipHuffman.ByteOfStream | zip/zip.js:507 | the eight stream bits at 8k are byte k |
| ZipHuffman.FieldAboveByte | zip/zip.js:507 | a byte placed above lower bytes is found eight bits higher |
| ZipHuffman.HeaderFields | zip/zip.js:492-494 | HLIT, HDIST and HCLEN are the stream's bits 3-7, 8-12 and 13-16, and the rest starts at bit 17 |
| ZipHuffman.Refill | zip/zip.js:506-509 | a refill adds the next byte above the held bits |
| ZipHuffman.RefillFrom | zip/zip.js:506-509 | the same, from any position |
| ZipHuffman.RefillBits | zip/zip.js:506-509 | n + 8 stream bits are the n bits plus the next byte above them |
| ZipHuffman.ByteBits | zip/zip.js:507 | the eight bits at 8k of the whole buffer's value are byte k |
| ZipHuffman.HoldsFrom | zip/zip.js:501-503 | the held bits are the stream's bits from a position |
| ZipHuffman.Take | zip/zip.js:510-512 | taking nb held bits returns the next nb stream bits and keeps the rest held |
| ZipHuffman.GetBits | zip/zip.js:505-514 | `getBits(nb)` returns the next nb bits of the stream, least significant first, and advances the position by nb |
| ZipHuffman.OrderAndPosition | zip/zip.js:437-439 | the code length order is a permutation of 0 to 18 |
| ZipHuffman.CodeLengthLengths | zip/zip.js:516-519 | 19 lengths, each below 8 |
| ZipHuffman.CodeLengthLengthsPlaced | zip/zip.js:516-519 | the i-th 3-bit group, for i below HCLEN, lands at the i-th place of the order; the other places stay 0 |
| ZipHuffman.PlaceNext | zip/zip.js:517-518 | one turn of the loop places the next 3-bit group |
| ZipHuffman.ReadDynamicHeader | zip/zip.js:492-519 | HLIT + 257, HDIST + 1, HCLEN + 4 and the code length code lengths, read from the stream |
| ZipCodes.OfLength | zip/zip.js:447-449 | the symbols of one length, all of that length |
| ZipCodes.Groups | zip/zip.js:447-449 | symbols grouped by length from a given length up |
| ZipCodes.ByLength | zip/zip.js:447-449 | the sorted order lists symbols of the table |
| ZipCodes.OfLengthOrdered | zip/zip.js:447-449 | the symbols of one length are ascending and include every symbol of that length |
| ZipCodes.GroupsOrdered | zip/zip.js:447-449 | the groups are ordered by length, then symbol, and include every symbol in range |
| ZipCodes.ByLengthIsStableSort | zip/zip.js:447-449 | the sort is stable and a permutation of the symbols: ordered by length, then by index, each exactly once |
| ZipCodes.Sorted | zip/zip.js:447-449 | the sorted copy pairs each symbol of the stable order with its length |
| ZipCodes.Pos | zip/zip.js:469-470 | the position of a symbol in the sorted copy, when it is there |
| ZipCodes.PosAt | zip/zip.js:469-470 | the first place that holds a symbol is its position |
| ZipCodes.SortedHoldsEvery | zip/zip.js:447-449 | every symbol is in the sorted copy |
| ZipCodes.SortedAscends | zip/zip.js:447-449 | the sorted copy's lengths ascend |
| ZipCodes.Step | zip/zip.js:460-463 | a non-zero length steps the code by 2^(16 - length) |
| ZipCodes.StepsAreKraft | zip/zip.js:458-467 | the value the loop assigns at a position is the sum of 2^(16 - length) over the later entries (a Kraft sum) |
| ZipCodes.Reverse | zip/zip.js:473 | `reverse()` puts character i at the mirrored place |
| ZipCodes.ReversedBits | zip/zip.js:473 | reversing a bit string leaves a bit string |
| ZipCodes.Shape | zip/zip.js:472-474 | a code's string is a bit string of its length |
| ZipCodes.CodeIn | zip/zip.js:469-475 | a symbol's code is a bit string of its length |
| ZipCodes.TheCodes | zip/zip.js:445-476 | one code per symbol, each a bit string as long as the symbol's length |
| ZipCodes.UsedCodeValue | zip/zip.js:445-476 | a used symbol's code is the top bits, reversed, of the Kraft sum after its place in the stable order |
| ZipCodes.GenerateTheCodes | zip/zip.js:445-476 | returns what `TheCodes` describes |
| ZipCodes.CodeValues | zip/zip.js:453-467 | the backward loop assigns each position the Kraft sum of the later entries |
| ZipCodes.Advance | zip/zip.js:459-463 | one turn of the loop: the code grows by the previous increment, and the increment changes when the length does |
| ZipCodes.ShapeIsTopBits | zip/zip.js:472-474 | the code string is the reversed top bits of the 16-bit value |
| ZipCodes.ReversedCodesCanClash | zip/zip.js:445-476 | for lengths [1, 2, 2] the codes are "1", "10" and "00", and "1" is a prefix of "10" |
| BcxLayout.Offset31 | ff7-model-viewer/model-viewer.js:216 | the masked offset is below 2^31 |
| BcxLayout.Offset31IgnoresBit31 | ff7-model-viewer/model-viewer.js:216 | the masked offset does not depend on bit 31 |
| BcxLayout.BcxHeaderAt | ff7-model-viewer/model-viewer.js:47-51 | the file header is read exactly when 8 bytes fit, and the models' offset is its second word |
| BcxLayout.ModelHeaderAt | ff7-model-viewer/model-viewer.js:207-229 | the model header is read exactly when 32 bytes fit; the counts are bytes 2 to 4 and the skeleton offset is masked to 31 bits |
| BcxLayout.HeadersIgnoreBit31 | ff7-model-viewer/model-viewer.js:192 | the model, part and animation headers do not depend on the top bit of their masked offsets |
| BcxLayout.BoneAt | ff7-model-viewer/model-viewer.js:58-63 | a bone has a signed 16-bit length, a signed 8-bit parent and has a mesh exactly when its fourth byte is non-zero |
| BcxLayout.PartHeaderAt | ff7-model-viewer/model-viewer.js:404-450 | a part header is read exactly when 32 bytes fit, with the vertex offset masked to 31 bits |
| BcxLayout.VertexAt | ff7-model-viewer/model-viewer.js:251-257 | a vertex is three signed 16-bit coordinates |
| BcxLayout.PolygonGroups | ff7-model-viewer/model-viewer.js:265-387 | eight polygon groups |
| BcxLayout.GroupIndex | ff7-model-viewer/model-viewer.js:265-387 | each polygon kind has a group number below 8 |
| BcxLayout.PolygonGroupsCoverKinds | ff7-model-viewer/model-viewer.js:265-387 | the eight groups are the eight polygon kinds, each once |
| BcxLayout.PolygonSizes | ff7-model-viewer/model-viewer.js:265-387 | records take 24, 20, 12, 12, 8, 8, 16 and 20 bytes, in the order the groups are read |
| BcxLayout.PolygonAt | ff7-model-viewer/model-viewer.js:265-387 | a polygon has three or four corners and one shared colour exactly when its kind is monochrome |
| BcxLayout.GroupsBytesSnoc | ff7-model-viewer/model-viewer.js:265-387 | the groups' bytes add up group by group |
| BcxLayout.GroupsBytesTotal | ff7-model-viewer/model-viewer.js:265-387 | the polygon table spans the counts times the record sizes |
| BcxLayout.GroupRecordEnds | ff7-model-viewer/model-viewer.js:265-387 | a group ends after its count of records |
| BcxLayout.GroupsBytesShift | ff7-model-viewer/model-viewer.js:265-387 | the bytes before group j are the first group's plus those between |
| BcxLayout.GroupsPlaced | ff7-model-viewer/model-viewer.js:265-387 | each group is read right after the groups before it |
| BcxLayout.GroupPlaced | ff7-model-viewer/model-viewer.js:265-387 | group j starts after the bytes of groups 0 to j-1 |
| BcxLayout.GroupsEnd | ff7-model-viewer/model-viewer.js:265-387 | the groups end after all their bytes |
| BcxLayout.GroupsSucceed | ff7-model-viewer/model-viewer.js:265-387 | the groups are read when each one is |
| BcxLayout.GroupsLayout | ff7-model-viewer/model-viewer.js:265-387 | the polygon table is read exactly when every group is read at its place |
| BcxLayout.GroupLayout | ff7-model-viewer/model-viewer.js:265-281 | polygon i of a group is the record at i record sizes from the group's start |
| BcxLayout.PartDataSections | ff7-model-viewer/model-viewer.js:231-402 | the part's vertices, texture coordinates and polygons are the three tables at the header's offsets |
| BcxLayout.PartVerticesLayout | ff7-model-viewer/model-viewer.js:249-257 | vertex i is read at `offsetVertices + 4 + 8i` |
| BcxLayout.PartTextureCoordsLayout | ff7-model-viewer/model-viewer.js:259-262 | texture coordinate i is the two bytes at `offsetVertices + offsetTextureCoords + 2i` |
| BcxLayout.PartPolygonsLayout | ff7-model-viewer/model-viewer.js:264-387 | the eight groups start at `offsetVertices + offsetPolygon`, one after another |
| BcxLayout.VerticesLayout | ff7-model-viewer/model-viewer.js:251-257 | vertex i of a table is at eight bytes per vertex |
| BcxLayout.TextureCoordsLayout | ff7-model-viewer/model-viewer.js:260-262 | texture coordinate i of a table is at two bytes per entry |
| BcxLayout.AnimationHeaderAt | ff7-model-viewer/model-viewer.js:183-205 | an animation header is read exactly when 16 bytes fit, with the data offset masked to 31 bits |
| BcxLayout.RotationAt | ff7-model-viewer/model-viewer.js:113-129 | a rotation fails only with a RangeError |
| BcxLayout.TranslationAt | ff7-model-viewer/model-viewer.js:131-171 | a translation fails only with a RangeError |
| BcxLayout.FrameAt | ff7-model-viewer/model-viewer.js:108-177 | a frame fails only with a RangeError |
| BcxLayout.RotationSource | ff7-model-viewer/model-viewer.js:113-129 | with the flag bit clear, the channel's own byte; with it set, the byte at `offsetData + offsetFramesRotation + index * frames + frame` |
| BcxLayout.TranslationSource | ff7-model-viewer/model-viewer.js:131-171 | with the flag bit set, the signed 16-bit value per frame; else the static value its index selects; else, for 0xFF, 0 |
| BcxLayout.FramesFrom | ff7-model-viewer/model-viewer.js:108 | the frames of a channel fail only with a RangeError |
| BcxLayout.ChannelFrames | ff7-model-viewer/model-viewer.js:107-178 | the frames of every channel fail only with a RangeError |
| BcxLayout.FramesFromPlaced | ff7-model-viewer/model-viewer.js:108-177 | frame k of a channel is the frame read for frame number k |
| BcxLayout.FramesFromSucceed | ff7-model-viewer/model-viewer.js:108-177 | the frames are read when each one is |
| BcxLayout.FramesFromShape | ff7-model-viewer/model-viewer.js:108-177 | a channel's frames are read exactly when each frame is, one per frame number |
| BcxLayout.ChannelFramesShape | ff7-model-viewer/model-viewer.js:107-178 | the animation is read exactly when every frame of every channel is; entry [i][f] is channel i's frame f |
| BcxLayout.AnimationDataAt | ff7-model-viewer/model-viewer.js:86-181 | the channel records, then each channel's frames; `AnimationShape` states the layout |
| BcxLayout.AnimationShape | ff7-model-viewer/model-viewer.js:86-181 | channel i is the 8-byte record at `offsetData + 4 + 8i`, and it has one frame per frame number |
| BcxLayout.SkeletonLayout | ff7-model-viewer/model-viewer.js:57-63 | bone i is the 4-byte record at `offsetSkeleton + 4i` |
| BcxLayout.BcxAt | ff7-model-viewer/model-viewer.js:38-45 | the file header, then the model at `offsetModels`; `ModelSections` states the model's layout |
| BcxLayout.ModelAt | ff7-model-viewer/model-viewer.js:53-84 | skeleton, parts and animations as three record tables; `ModelSections`, `ModelSkeletonLayout`, `ModelPartsLayout` and `ModelAnimationsLayout` state where each record sits |
| BcxLayout.PartAt | ff7-model-viewer/model-viewer.js:65-72 | a part header, then its data read from the offsets the header gives; the offset is restored afterwards, so `ModelPartsLayout` places part i at the header 32i bytes after the skeleton |
| BcxLayout.AnimationAt | ff7-model-viewer/model-viewer.js:74-81 | an animation header, then its data read from the header's `offsetData`; the offset is restored afterwards, so `ModelAnimationsLayout` places animation i at the header 16i bytes after the parts |
| BcxLayout.PartDataAt | ff7-model-viewer/model-viewer.js:231-402 | vertices, texture coordinates and polygon groups of one part; `PartDataSections`, `PartVerticesLayout`, `PartTextureCoordsLayout` and `PartPolygonsLayout` state the layout |
| BcxLayout.ModelSections | ff7-model-viewer/model-viewer.js:53-84 | skeleton, parts and animations are record tables of strides 4, 32 and 16, one after another from `offsetSkeleton` |
| BcxLayout.ModelSkeletonLayout | ff7-model-viewer/model-viewer.js:57-63 | the model's bones are the skeleton table's records |
| BcxLayout.ModelPartsLayout | ff7-model-viewer/model-viewer.js:65-72 | part i comes from the part header 32i bytes after the skeleton |
| BcxLayout.ModelAnimationsLayout | ff7-model-viewer/model-viewer.js:74-81 | animation i comes from the animation header 16i bytes after the parts |
| Bcx.RunDone | ff7-model-viewer/model-viewer.js:58 | a run with no records left yields what was read |
| Bcx.ParseBcxHeader | ff7-model-viewer/model-viewer.js:47-51 | returns what `BcxHeaderAt` describes |
| Bcx.ParseModelHeader | ff7-model-viewer/model-viewer.js:207-229 | returns what `ModelHeaderAt` describes |
| Bcx.ParseModelPartHeader | ff7-model-viewer/model-viewer.js:404-450 | returns what `PartHeaderAt` describes |
| Bcx.ParseModelAnimationsHeader | ff7-model-viewer/model-viewer.js:183-205 | returns what `AnimationHeaderAt` describes |
| Bcx.ReadBone | ff7-model-viewer/model-viewer.js:59-62 | reads one bone and advances by four |
| Bcx.ReadSkeleton | ff7-model-viewer/model-viewer.js:58-63 | the loop reads the skeleton table |
| Bcx.ReadVertex | ff7-model-viewer/model-viewer.js:252-256 | reads one vertex and advances by eight |
| Bcx.ReadVertices | ff7-model-viewer/model-viewer.js:251-257 | the loop reads the vertex table |
| Bcx.ReadTextureCoord | ff7-model-viewer/model-viewer.js:261 | reads one texture coordinate pair |
| Bcx.ReadTextureCoords | ff7-model-viewer/model-viewer.js:260-262 | the loop reads the texture coordinate table |
| Bcx.ReadColors | ff7-model-viewer/model-viewer.js:269-272 | reads one colour per 4-byte group, dropping the padding byte |
| Bcx.PolygonOf | ff7-model-viewer/model-viewer.js:275-280 | a polygon has as many corners as its kind |
| Bcx.PolygonOfAt | ff7-model-viewer/model-viewer.js:265-387 | the polygon assembled from the record's groups is `PolygonAt` |
| Bcx.ReadPolygon | ff7-model-viewer/model-viewer.js:265-387 | reads one polygon record and advances by its size |
| Bcx.ReadPolygons | ff7-model-viewer/model-viewer.js:265-387 | the loop reads one group |
| Bcx.ReadPolygonGroups | ff7-model-viewer/model-viewer.js:264-387 | reads the eight groups in order |
| Bcx.ParseModelPartData | ff7-model-viewer/model-viewer.js:231-402 | returns what `PartDataAt` describes |
| Bcx.ReadPart | ff7-model-viewer/model-viewer.js:66-71 | reads a part and leaves the cursor after its header |
| Bcx.ReadParts | ff7-model-viewer/model-viewer.js:65-72 | the loop reads the part table |
| Bcx.ReadChannel | ff7-model-viewer/model-viewer.js:99-104 | reads one channel and advances by eight |
| Bcx.ReadChannels | ff7-model-viewer/model-viewer.js:96-105 | the loop reads the channel table |
| Bcx.ReadRotation | ff7-model-viewer/model-viewer.js:113-129 | returns what `RotationAt` describes |
| Bcx.ReadTranslation | ff7-model-viewer/model-viewer.js:131-171 | returns what `TranslationAt` describes |
| Bcx.ReadFrame | ff7-model-viewer/model-viewer.js:108-177 | returns what `FrameAt` describes |
| Bcx.ReadFrames | ff7-model-viewer/model-viewer.js:108-177 | the loop returns a channel's frames |
| Bcx.ParseModelAnimationsData | ff7-model-viewer/model-viewer.js:86-181 | returns what `AnimationDataAt` describes |
| Bcx.ReadAnimation | ff7-model-viewer/model-viewer.js:75-80 | reads an animation and leaves the cursor after its header |
| Bcx.ReadAnimations | ff7-model-viewer/model-viewer.js:74-81 | the loop reads the animation table |
| Bcx.ParseModel | ff7-model-viewer/model-viewer.js:53-84 | returns what `ModelAt` describes |
| Bcx.ParseBcx | ff7-model-viewer/model-viewer.js:38-45 | returns what `BcxAt` describes |
| Tdb.TdbHeaderAt | ff7-model-viewer/model-viewer.js:488-502 | the header is read exactly when 16 bytes fit; the counts are the 16-bit words at 4 and 6 |
| Tdb.Unpack | ff7-model-viewer/model-viewer.js:466-469 | twice as many palette indices as bytes, each below 16 |
| Tdb.UnpackLayout | ff7-model-viewer/model-viewer.js:466-469 | each byte gives two pixels, low nibble first, each below 16 |
| Tdb.PackUnpack | ff7-model-viewer/model-viewer.js:466-469 | packing the nibbles back gives the bytes |
| Tdb.ImageAt | ff7-model-viewer/model-viewer.js:462-470 | an image is read exactly when 512 bytes fit |
| Tdb.ColorOf | ff7-model-viewer/model-viewer.js:476-481 | each channel is a multiple of 8 below 256, and alpha is 0 exactly when bit 15 is set, else 255, as the code does; the comment on line 480 says a set bit means opaque |
| Tdb.WordOf | ff7-model-viewer/model-viewer.js:476-481 | an AB5G5R5 colour packs into a 16-bit word |
| Tdb.WordOfColorOf | ff7-model-viewer/model-viewer.js:476-481 | encoding the decoded colour gives the word back |
| Tdb.ColorOfWordOf | ff7-model-viewer/model-viewer.js:476-481 | decoding an encoded AB5G5R5 colour gives it back |
| Tdb.PaletteAt | ff7-model-viewer/model-viewer.js:472-483 | a palette is 16 colours, read exactly when 32 bytes fit |
| Tdb.TdbAt | ff7-model-viewer/model-viewer.js:452-457 | the header, then the data right after it; `TdbExtent` states when it succeeds |
| Tdb.TdbDataAt | ff7-model-viewer/model-viewer.js:459-486 | the images, 512 bytes apart, then the palettes, 32 bytes apart; `TdbImagesLayout` and `TdbPalettesLayout` state the layout |
| Tdb.TdbExtent | ff7-model-viewer/model-viewer.js:452-502 | a bank is read exactly when the header, the images and the palettes fit one after another |
| Tdb.TdbImagesLayout | ff7-model-viewer/model-viewer.js:462-470 | image i is the unpacked 512 bytes at 512i, 1024 pixels below 16 |
| Tdb.TdbPalettesLayout | ff7-model-viewer/model-viewer.js:472-483 | palette i follows the images, at 32 bytes per palette |
| Tdb.ParseTdbHeader | ff7-model-viewer/model-viewer.js:488-502 | returns what `TdbHeaderAt` describes |
| Tdb.ReadImage | ff7-model-viewer/model-viewer.js:466-469 | reads one image and advances by 512 |
| Tdb.ReadImages | ff7-model-viewer/model-viewer.js:462-470 | the loop reads the image table |
| Tdb.ReadPalette | ff7-model-viewer/model-viewer.js:474-482 | reads one palette and advances by 32 |
| Tdb.ReadPalettes | ff7-model-viewer/model-viewer.js:472-483 | the loop reads the palette table |
| Tdb.ParseTdbData | ff7-model-viewer/model-viewer.js:459-486 | returns what `TdbDataAt` describes |
| Tdb.ParseTdb | ff7-model-viewer/model-viewer.js:452-457 | returns what `TdbAt` describes |

## Left out

- Rendering, the canvas, audio output, downloads, the DOM (`stringToHTML` in utilities.js) and
  the `console` logging of every `parse` are not modelled. They are I/O.
- The files under `iqr/` are not part of this model. They are a game, not a parser.
- `fromMSDOSToDate` builds a JavaScript `Date`. The model stops at the decoded day, month, year,
  hours, minutes and seconds (`ParseMsDosDate`, `ParseMsDosTime`).
- The source of the little-endian reader that zip.js and model-viewer.js construct is not part
  of this model. `LeReader.Reader` models only what those files use:
  - an assignable offset;
  - getters that read at the offset, advance, and fail with a RangeError outside the buffer.
- Thrown errors are values of one `Error` enumeration. The message texts are not modelled.
- GifLzw.LzwDecode and GifLzw.LzwDecompress require a minimum code size below 12. That is the
  largest width the source lets the code grow to, and GIF allows at most 8.
- GifLzw.Extend: when a code lies past the table and there is no previous string, the source
  outputs `undefined` and goes on. The model stops with `UndefinedCode`.
- The fixed-Huffman symbol decoder `decompressBitStream` is not modelled, and neither is the
  dynamic tree after its header. That covers the `hlitTable` loop of `generateDynamicHuffmanTree`
  and the LZ77 tuples it leaves as a TODO. Those parts are generators whose results the source
  never uses.
- ZipCodes.TheCodes: it is modelled as written, with no prefix-free lemma, because its codes are
  not prefix-free (`ZipCodes.ReversedCodesCanClash`).
- Zip.ParseZipDataStream does not model the last assignment `reader.offset =
  reader.buffer.bytesLength` (zip.js line 258). `bytesLength` is undefined, so the offset
  becomes NaN, and the model does not represent that value.
- GifGrammar.ImageDataAt / Gif.ParseImageData: the buffer is the concatenation of every
  sub-block. As written, the source copies nothing for a one-byte sub-block (gif.js lines
  265-271), so for [2, 1, 7, 0] it yields [0] where the model yields [7]. The as-written copy is
  `GifGrammar.PayloadAsWritten`. `PayloadAsWrittenAgrees` shows that the two agree whenever no
  sub-block is one byte long.
- GifGrammar.TableBasedImageAt / RenderingAt / GraphicBlockAt / DataBlockAt / DataAt / GifAt and
  Gif.ParseTableBasedImage / ParseGraphicRenderingBlock / ParseGraphicBlock / ParseDataBlock /
  ParseData / ParseGifDataStream: they return the image data of `ImageDataAt`, so they carry the
  same corrected buffer for a one-byte sub-block.
- CentralEntryAt / CentralBodyAt / CentralVariableAt / CentralEntryShape / ParseCentralDirectory /
  ReadCentralBody / ReadCentralVariable: these take the host from the upper byte of the
  little-endian "version made by" field and the specification version from the lower byte
  (`ZipGrammar.MadeByField`). The source takes the host from the first byte (zip.js lines 96 and
  133), so for the field [30, 3] it reports "unknown" and 3 where the model reports UNIX and 30.
  The as-written split is `ZipGrammar.MadeByAsWritten`.
- ZipGrammar.CentralDirectoryFrom / ContinueFrom / NextEntryAt / ArchiveFrom / ArchiveAt / ZipAt and
  Zip.ParseCentralDirectoryEntries / ParseNextEntry / ParseArchive / ParseZipDataStream / Parse:
  they return the entries of `CentralEntryAt`, so they carry the same corrected "version made by"
  split.
- ZipHuffman.Grown / ZipHuffman.Insert: a code whose path runs through a stored value replaces
  that value with a new node. The source's `||=` keeps a truthy value: a non-zero literal then
  makes the recursive `generateNodes` throw a TypeError, and a length object gets the subtree
  as properties. This cannot happen for the fixed code, whose codes are prefix-free
  (`ZipHuffman.StaticCodesApart`).
- TDB: `imageOffset` and `paletteOffset` are read into the header but not used by the source.
  The model reads the images and palettes straight after the header, as the source does.
- The Reader.js iterator protocol is modelled as a sticky `exhausted` flag. It is not modelled
  as a generator object.

## Findings

| source | as written | input that shows it | evidently intended | confidence | as-written member | corrected member |
|---|---|---|---|---|---|---|
| gif/gif.js:265-271 | `buffer.set(block.data, offset)` where a one-byte sub-block's `data` is the bare number `read(1)` returns, so nothing is copied | image data [2, 1, 7, 0] (minimum code size 2, one block holding 7) gives the buffer [0] | the buffer is the concatenation of every sub-block's bytes | not executed | GifGrammar.PayloadAsWrittenLosesOneByteBlocks | GifGrammar.PayloadIsConcatenation |
| zip/zip.js:96 | `const [version, zipSpecificationVersion] = reader.getBytes(2)` takes the host from the first (low) byte of the little-endian "version made by" field | the field [30, 3] (UNIX, specification 3.0) reports an unknown host | the host is the upper byte and the specification version the lower byte | not executed | ZipGrammar.MadeByAsWrittenSwapsBytes | ZipGrammar.MadeByField |
