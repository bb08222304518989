/** The parsers of `gif/gif.js`: each one consumes the shared `Reader` the way the source does,
    and is proved to produce exactly what the matching function of `GifGrammar` describes for
    the buffer and the offset it started at. A parser that succeeds leaves the generator live. */
module Gif {
  import opened Bytes
  import opened ByteReader
  import opened Utilities
  import opened GifGrammar

  method AssertExtension(reader: Reader, expected: byte) returns (r: Result<()>)
    requires reader.Valid() && !reader.exhausted
    modifies reader
    ensures reader.Valid() && !reader.exhausted
    ensures r == ExtensionAt(reader.bytes, old(reader.offset), expected)
    ensures r.Ok? ==> reader.offset == old(reader.offset) + 2
  {
    var pair :- reader.ReadArray(2);
    if pair[0] != EXTENSION_INTRODUCER {
      return Err(ExpectedIntroducer);
    }
    if pair[1] != expected {
      return Err(ExpectedLabel);
    }
    return Ok(());
  }

  method ParseHeader(reader: Reader) returns (r: Result<Header>)
    requires reader.Valid() && !reader.exhausted
    modifies reader
    ensures reader.Valid() && !reader.exhausted
    ensures Outcome(r, reader.offset) == HeaderAt(reader.bytes, old(reader.offset))
  {
    var signature :- reader.ReadArray(3);
    var version :- reader.ReadArray(3);
    AsciiIsGif(signature);
    if Ascii(signature) != "GIF" {
      return Err(BadSignature);
    }
    if !IsVersion(version) {
      return Err(BadVersion);
    }
    return Ok(Header(Ascii(signature), Ascii(version)));
  }

  method ParseLogicalScreenDescriptor(reader: Reader) returns (r: Result<ScreenDescriptor>)
    requires reader.Valid() && !reader.exhausted
    modifies reader
    ensures reader.Valid()
    ensures Outcome(r, reader.offset) == ScreenDescriptorAt(reader.bytes, old(reader.offset))
    ensures r.Ok? ==> !reader.exhausted
  {
    var width :- reader.ReadArray(2);
    var height :- reader.ReadArray(2);
    var packed :- reader.ReadByte();
    var background :- reader.ReadByte();
    var aspect :- reader.ReadByte();
    return Ok(ScreenDescriptor(ToUnsigned(width), ToUnsigned(height),
                               packed / 128 == 1, (packed / 16) % 8, (packed / 8) % 2 == 1, packed % 8,
                               background, aspect));
  }

  /** `parseColorTable`: `3 * 2^(size + 1)` bytes, three at a time. */
  method ParseColorTable(reader: Reader, size: int) returns (r: Result<seq<Rgb>>)
    requires reader.Valid() && !reader.exhausted && size >= -1
    modifies reader
    ensures reader.Valid() && !reader.exhausted
    ensures Outcome(r, reader.offset) == ColorTableAt(reader.bytes, old(reader.offset), size)
  {
    var table: seq<Rgb> := [];
    if size == -1 {
      return Ok(table);
    }
    var count := 3 * Pow2(size + 1);
    var i := 0;
    ghost var left: nat := Pow2(size + 1);
    PrependNothing(ColorEntriesAt(reader.bytes, reader.offset, left));
    while i < count
      invariant reader.Valid() && !reader.exhausted
      invariant i + 3 * left == count
      invariant ColorTableAt(reader.bytes, old(reader.offset), size)
             == Prepend(table, ColorEntriesAt(reader.bytes, reader.offset, left))
    {
      var rgb :- reader.ReadArray(3);
      PrependTwice(table, [Rgb(rgb[0], rgb[1], rgb[2])], ColorEntriesAt(reader.bytes, reader.offset, left - 1));
      table := table + [Rgb(rgb[0], rgb[1], rgb[2])];
      i, left := i + 3, left - 1;
    }
    assert table + [] == table;
    return Ok(table);
  }

  method ParseLogicalScreen(reader: Reader) returns (r: Result<LogicalScreen>)
    requires reader.Valid() && !reader.exhausted
    modifies reader
    ensures reader.Valid()
    ensures Outcome(r, reader.offset) == LogicalScreenAt(reader.bytes, old(reader.offset))
    ensures r.Ok? ==> !reader.exhausted
  {
    var descriptor :- ParseLogicalScreenDescriptor(reader);
    var table :- ParseColorTable(reader, if descriptor.globalColorTableFlag then descriptor.sizeOfGlobalColorTable else -1);
    return Ok(LogicalScreen(descriptor, table));
  }

  /** The sub-block loop of `parseImageData`, `parsePlainTextExtension` and (with `text`)
      `parseCommentExtension`: blocks until a zero size byte. */
  method ParseSubBlocks(reader: Reader, text: bool) returns (r: Result<seq<SubBlock>>)
    requires reader.Valid() && !reader.exhausted
    modifies reader
    ensures reader.Valid()
    ensures Outcome(r, reader.offset) == SubBlocksAt(reader.bytes, old(reader.offset), text)
    ensures r.Ok? ==> !reader.exhausted
  {
    var blocks: seq<SubBlock> := [];
    var blockSize :- reader.ReadByte();
    PrependNothing(SubBlocksAt(reader.bytes, reader.offset - 1, text));
    while blockSize != BLOCK_TERMINATOR
      invariant reader.Valid() && !reader.exhausted && 1 <= reader.offset
      invariant reader.bytes[reader.offset - 1] == blockSize
      invariant SubBlocksAt(reader.bytes, old(reader.offset), text)
             == Prepend(blocks, SubBlocksAt(reader.bytes, reader.offset - 1, text))
      decreases |reader.bytes| - reader.offset
    {
      var block :- ReadSubBlock(reader, blockSize, text);
      PrependTwice(blocks, [block], SubBlocksAt(reader.bytes, reader.offset, text));
      blocks := blocks + [block];
      blockSize :- reader.ReadByte();
    }
    assert blocks + [] == blocks;
    return Ok(blocks);
  }

  /** The body of the sub-block loop: `read(blockSize)` after a size byte that is not the
      terminator. The chain from the size byte is this block in front of the chain after it. */
  method ReadSubBlock(reader: Reader, blockSize: byte, text: bool) returns (r: Result<SubBlock>)
    requires reader.Valid() && !reader.exhausted && 1 <= reader.offset <= |reader.bytes|
    requires reader.bytes[reader.offset - 1] == blockSize != BLOCK_TERMINATOR
    modifies reader
    ensures reader.Valid() && old(reader.offset) <= reader.offset
    ensures r.Err? ==> SubBlocksAt(reader.bytes, old(reader.offset) - 1, text) == Err(r.error)
    ensures r.Ok? ==> !reader.exhausted && SubBlocksAt(reader.bytes, old(reader.offset) - 1, text)
                      == Prepend([r.value], SubBlocksAt(reader.bytes, reader.offset, text))
  {
    var offset := reader.offset;
    SubBlocksStep(reader.bytes, offset - 1, text);
    var data :- reader.Read(blockSize);
    if text && data.One? {
      return Err(TypeError);
    }
    return Ok(SubBlock(data, blockSize, offset));
  }

  method ParseImageData(reader: Reader) returns (r: Result<ImageData>)
    requires reader.Valid() && !reader.exhausted
    modifies reader
    ensures reader.Valid()
    ensures Outcome(r, reader.offset) == ImageDataAt(reader.bytes, old(reader.offset))
    ensures r.Ok? ==> !reader.exhausted
  {
    var minimumCodeSize :- reader.ReadByte();
    var blocks :- ParseSubBlocks(reader, false);
    return Ok(ImageData(Spans(blocks), Payload(blocks), minimumCodeSize));
  }

  method ParseImageDescriptor(reader: Reader) returns (r: Result<ImageDescriptor>)
    requires reader.Valid() && !reader.exhausted
    modifies reader
    ensures reader.Valid()
    ensures Outcome(r, reader.offset) == ImageDescriptorAt(reader.bytes, old(reader.offset))
    ensures r.Ok? ==> !reader.exhausted
  {
    var separator :- reader.ReadByte();
    if separator != IMAGE_SEPARATOR {
      return Err(ExpectedImageSeparator);
    }
    var rectangle :- ReadRectangle(reader);
    var (left, top, width, height) := rectangle;
    var packed :- reader.ReadByte();
    return Ok(ImageDescriptor(left, top, width, height,
                              packed / 128 == 1, (packed / 64) % 2 == 1, (packed / 32) % 2 == 1, packed % 8));
  }

  /** The four `readArray(2)` of a position and size, each read as an unsigned number. */
  method ReadRectangle(reader: Reader) returns (r: Result<(nat, nat, nat, nat)>)
    requires reader.Valid()
    modifies reader
    ensures reader.Valid() && reader.exhausted == old(reader.exhausted)
    ensures Outcome(r, reader.offset) == RectangleAt(reader.bytes, old(reader.offset))
  {
    var left :- reader.ReadArray(2);
    var top :- reader.ReadArray(2);
    var width :- reader.ReadArray(2);
    var height :- reader.ReadArray(2);
    return Ok((ToUnsigned(left), ToUnsigned(top), ToUnsigned(width), ToUnsigned(height)));
  }

  method ParseTableBasedImage(reader: Reader) returns (r: Result<TableBasedImage>)
    requires reader.Valid() && !reader.exhausted
    modifies reader
    ensures reader.Valid()
    ensures Outcome(r, reader.offset) == TableBasedImageAt(reader.bytes, old(reader.offset))
    ensures r.Ok? ==> !reader.exhausted
  {
    var descriptor :- ParseImageDescriptor(reader);
    var table :- ParseColorTable(reader, if descriptor.localColorTableFlag then descriptor.sizeOfLocalColorTable else -1);
    var data :- ParseImageData(reader);
    return Ok(TableBasedImage(descriptor, table, data));
  }

  method ParseGraphicControlExtension(reader: Reader) returns (r: Result<GraphicControl>)
    requires reader.Valid() && !reader.exhausted
    modifies reader
    ensures reader.Valid()
    ensures Outcome(r, reader.offset) == GraphicControlAt(reader.bytes, old(reader.offset))
    ensures r.Ok? ==> !reader.exhausted
  {
    var _ :- AssertExtension(reader, GRAPHIC_CONTROL_EXTENSION_LABEL);
    var blockSize :- reader.ReadByte();
    if blockSize != 4 {
      return Err(BadBlockSize);
    }
    var packed :- reader.ReadByte();
    var delay :- reader.ReadArray(2);
    var index :- reader.ReadByte();
    var terminator :- reader.ReadByte();
    if terminator != BLOCK_TERMINATOR {
      return Err(MissingTerminator);
    }
    return Ok(GraphicControl((packed / 4) % 8, (packed / 2) % 2 == 1, packed % 2 == 1, ToUnsigned(delay), index));
  }

  method ParsePlainTextExtension(reader: Reader) returns (r: Result<PlainText>)
    requires reader.Valid() && !reader.exhausted
    modifies reader
    ensures reader.Valid()
    ensures Outcome(r, reader.offset) == PlainTextAt(reader.bytes, old(reader.offset))
    ensures r.Ok? ==> !reader.exhausted
  {
    var _ :- AssertExtension(reader, PLAIN_TEXT_EXTENSION_LABEL);
    var blockSize :- reader.ReadByte();
    if blockSize != 12 {
      return Err(BadBlockSize);
    }
    r := ParsePlainTextBody(reader);
  }

  /** The reads of `parsePlainTextExtension` after the block size. */
  method ParsePlainTextBody(reader: Reader) returns (r: Result<PlainText>)
    requires reader.Valid() && !reader.exhausted
    modifies reader
    ensures reader.Valid()
    ensures Outcome(r, reader.offset) == PlainTextBodyAt(reader.bytes, old(reader.offset))
    ensures r.Ok? ==> !reader.exhausted
  {
    var grid :- ReadRectangle(reader);
    var (left, top, width, height) := grid;
    var cellWidth :- reader.ReadByte();
    var cellHeight :- reader.ReadByte();
    var foreground :- reader.ReadByte();
    var background :- reader.ReadByte();
    var blocks :- ParseSubBlocks(reader, false);
    return Ok(PlainText(left, top, width, height, cellWidth, cellHeight, foreground, background, blocks));
  }

  method ParseCommentExtension(reader: Reader) returns (r: Result<seq<CommentBlock>>)
    requires reader.Valid() && !reader.exhausted
    modifies reader
    ensures reader.Valid()
    ensures Outcome(r, reader.offset) == CommentAt(reader.bytes, old(reader.offset))
    ensures r.Ok? ==> !reader.exhausted
  {
    var _ :- AssertExtension(reader, COMMENT_EXTENSION_LABEL);
    var blocks :- ParseSubBlocks(reader, true);
    return Ok(seq(|blocks|, i requires 0 <= i < |blocks| => AsComment(blocks[i])));
  }

  method ParseApplicationExtension(reader: Reader) returns (r: Result<Application>)
    requires reader.Valid() && !reader.exhausted
    modifies reader
    ensures reader.Valid()
    ensures Outcome(r, reader.offset) == ApplicationAt(reader.bytes, old(reader.offset))
    ensures r.Ok? ==> !reader.exhausted
  {
    var _ :- AssertExtension(reader, APPLICATION_EXTENSION_LABEL);
    var blockSize :- reader.ReadByte();
    if blockSize != 11 {
      return Err(BadBlockSize);
    }
    var identifier :- reader.ReadArray(8);
    var authentication :- reader.ReadArray(3);
    var data :- ReadApplicationData(reader);
    if |data| > 0 && data[|data| - 1] == BLOCK_TERMINATOR {
      data := data[..|data| - 1];
      reader.Rewind(1);
    }
    return Ok(Application(Ascii(identifier), authentication, data));
  }

  /** The loop of `parseApplicationExtension`: bytes are collected until an introducer. */
  method ReadApplicationData(reader: Reader) returns (r: Result<seq<byte>>)
    requires reader.Valid() && !reader.exhausted
    modifies reader
    ensures reader.Valid()
    ensures Outcome(r, reader.offset) == ApplicationDataAt(reader.bytes, old(reader.offset))
    ensures r.Ok? ==> !reader.exhausted
  {
    ghost var start := reader.offset;
    var data: seq<byte> := [];
    var next :- reader.ReadByte();
    PrependNothing(ApplicationDataAt(reader.bytes, reader.offset - 1));
    while next != EXTENSION_INTRODUCER
      invariant reader.Valid() && !reader.exhausted && 1 <= reader.offset
      invariant reader.bytes[reader.offset - 1] == next
      invariant ApplicationDataAt(reader.bytes, start) == Prepend(data, ApplicationDataAt(reader.bytes, reader.offset - 1))
      decreases |reader.bytes| - reader.offset
    {
      PrependTwice(data, [next], ApplicationDataAt(reader.bytes, reader.offset));
      data := data + [next];
      next :- reader.ReadByte();
    }
    assert data + [] == data;
    return Ok(data);
  }

  method ParseGraphicRenderingBlock(reader: Reader) returns (r: Result<Rendering>)
    requires reader.Valid() && !reader.exhausted
    modifies reader
    ensures reader.Valid()
    ensures Outcome(r, reader.offset) == RenderingAt(reader.bytes, old(reader.offset))
    ensures r.Ok? ==> !reader.exhausted
  {
    var peek :- reader.ReadByte();
    reader.Rewind(1);
    if peek == EXTENSION_INTRODUCER {
      var text :- ParsePlainTextExtension(reader);
      return Ok(PlainTextRendering(text));
    } else if peek == IMAGE_SEPARATOR {
      var image :- ParseTableBasedImage(reader);
      return Ok(ImageRendering(image));
    }
    return Err(ExpectedImageOrExtension);
  }

  method ParseGraphicBlock(reader: Reader) returns (r: Result<Block>)
    requires reader.Valid() && !reader.exhausted
    modifies reader
    ensures reader.Valid()
    ensures Outcome(r, reader.offset) == GraphicBlockAt(reader.bytes, old(reader.offset))
    ensures r.Ok? ==> !reader.exhausted
  {
    var peek :- reader.ReadByte();
    reader.Rewind(1);
    var control := None;
    if peek == EXTENSION_INTRODUCER {
      var c :- ParseGraphicControlExtension(reader);
      control := Some(c);
    }
    var rendering :- ParseGraphicRenderingBlock(reader);
    return Ok(GraphicBlock(control, rendering));
  }

  /** `parseData`: peek at the next two bytes and dispatch, until the offset reaches the last
      two bytes of the buffer. */
  method ParseData(reader: Reader) returns (r: Result<seq<Block>>)
    requires reader.Valid() && !reader.exhausted
    modifies reader
    ensures reader.Valid()
    ensures Outcome(r, reader.offset) == DataAt(reader.bytes, old(reader.offset))
    ensures r.Ok? ==> !reader.exhausted
  {
    var data: seq<Block> := [];
    PrependNothing(DataAt(reader.bytes, reader.offset));
    while true
      invariant reader.Valid() && !reader.exhausted
      invariant DataAt(reader.bytes, old(reader.offset)) == Prepend(data, DataAt(reader.bytes, reader.offset))
      decreases |reader.bytes| - reader.offset
    {
      if reader.offset >= |reader.bytes| - 2 {
        break;
      }
      ghost var here := reader.offset;
      var item :- ParseDataBlock(reader);
      assert DataBlockAt(reader.bytes, here) == Ok(Parsed(item, reader.offset));
      PrependTwice(data, [item], DataAt(reader.bytes, reader.offset));
      data := data + [item];
    }
    assert data + [] == data;
    return Ok(data);
  }

  /** One turn of the loop of `parseData`: the next two bytes pick the block to parse. */
  method ParseDataBlock(reader: Reader) returns (r: Result<Block>)
    requires reader.Valid() && !reader.exhausted && reader.offset + 2 < |reader.bytes|
    modifies reader
    ensures reader.Valid()
    ensures Outcome(r, reader.offset) == DataBlockAt(reader.bytes, old(reader.offset))
    ensures r.Ok? ==> !reader.exhausted
  {
    var peek := reader.ReadArray(2);
    var introducer, extensionLabel := peek.value[0], peek.value[1];
    reader.Rewind(2);
    if introducer == IMAGE_SEPARATOR {
      r := ParseGraphicBlock(reader);
    } else if extensionLabel == APPLICATION_EXTENSION_LABEL {
      var app :- ParseApplicationExtension(reader);
      return Ok(ApplicationExtension(app));
    } else if extensionLabel == COMMENT_EXTENSION_LABEL {
      var comments :- ParseCommentExtension(reader);
      return Ok(CommentExtension(comments));
    } else if extensionLabel == GRAPHIC_CONTROL_EXTENSION_LABEL {
      r := ParseGraphicBlock(reader);
    } else if extensionLabel == PLAIN_TEXT_EXTENSION_LABEL {
      var text :- ParsePlainTextExtension(reader);
      return Ok(PlainTextExtension(text));
    } else {
      return Err(UnknownLabel);
    }
  }

  method ParseTrailer(reader: Reader) returns (r: Result<()>)
    requires reader.Valid() && !reader.exhausted
    modifies reader
    ensures reader.Valid()
    ensures Outcome(r, reader.offset) == TrailerAt(reader.bytes, old(reader.offset))
    ensures r.Ok? ==> !reader.exhausted
  {
    var trailer :- reader.ReadByte();
    if trailer != TRAILER_LABEL {
      return Err(BadTrailer);
    }
    return Ok(());
  }

  /** `parseGIFDataStream` on a fresh reader. */
  method ParseGifDataStream(reader: Reader) returns (r: Result<Gif>)
    requires reader.offset == 0 && !reader.exhausted
    modifies reader
    ensures reader.Valid()
    ensures Outcome(r, reader.offset) == GifAt(reader.bytes)
  {
    var header :- ParseHeader(reader);
    var screen :- ParseLogicalScreen(reader);
    var data :- ParseData(reader);
    var _ :- ParseTrailer(reader);
    return Ok(Gif(header, screen, data));
  }
}
