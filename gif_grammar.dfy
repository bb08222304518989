/** The GIF89a data stream as `gif/gif.js` reads it, stated as functions of the buffer and the
    offset a parser starts at. Each function follows its parser read by read, so it fails with
    the same error at the same point; the parser methods of module `Gif` are proved against
    these, and the lemmas here say in closed form what each one accepts and produces. */
module GifGrammar {
  import opened Bytes
  import opened ByteReader
  import opened Utilities

  const APPLICATION_EXTENSION_LABEL: byte := 0xFF
  const BLOCK_TERMINATOR: byte := 0x00
  const COMMENT_EXTENSION_LABEL: byte := 0xFE
  const EXTENSION_INTRODUCER: byte := 0x21
  const GRAPHIC_CONTROL_EXTENSION_LABEL: byte := 0xF9
  const IMAGE_SEPARATOR: byte := 0x2C
  const PLAIN_TEXT_EXTENSION_LABEL: byte := 0x01
  const TRAILER_LABEL: byte := 0x3B

  datatype Header = Header(signature: string, version: string)

  datatype Rgb = Rgb(r: byte, g: byte, b: byte)

  datatype ScreenDescriptor = ScreenDescriptor(
    width: nat, height: nat,
    globalColorTableFlag: bool, colorResolution: nat, sortFlag: bool, sizeOfGlobalColorTable: nat,
    backgroundColorIndex: byte, pixelAspectRatio: byte)

  datatype LogicalScreen = LogicalScreen(descriptor: ScreenDescriptor, globalColorTable: seq<Rgb>)

  datatype ImageDescriptor = ImageDescriptor(
    imageLeftPosition: nat, imageTopPosition: nat, imageWidth: nat, imageHeight: nat,
    localColorTableFlag: bool, interlaceFlag: bool, sortFlag: bool, sizeOfLocalColorTable: nat)

  /** One data sub-block: what `read(length)` returned (a bare byte when length is 1), its
      length and the offset of its first byte. */
  datatype SubBlock = SubBlock(data: Got, length: nat, offset: nat)

  /** A sub-block once its data has been moved into the image buffer. */
  datatype BlockSpan = BlockSpan(length: nat, offset: nat)

  datatype ImageData = ImageData(blocks: seq<BlockSpan>, buffer: seq<byte>, lzwMinimumCodeSize: byte)

  datatype TableBasedImage = TableBasedImage(
    descriptor: ImageDescriptor, localColorTable: seq<Rgb>, imageData: ImageData)

  datatype GraphicControl = GraphicControl(
    disposalMethod: nat, userInputFlag: bool, transparentColorFlag: bool,
    delayTime: nat, transparentColorIndex: byte)

  datatype PlainText = PlainText(
    textGridLeftPosition: nat, textGridTopPosition: nat,
    textGridWidth: nat, textGridHeight: nat,
    characterCellWidth: byte, characterCellHeight: byte,
    textForegroundColorIndex: byte, textBackgroundColorIndex: byte,
    blocks: seq<SubBlock>)

  datatype CommentBlock = CommentBlock(data: string, length: nat, offset: nat)

  datatype Application = Application(
    applicationIdentifier: string, applicationAuthenticationCode: seq<byte>, applicationData: seq<byte>)

  datatype Rendering = PlainTextRendering(text: PlainText) | ImageRendering(image: TableBasedImage)

  /** The items of the data part of the stream. */
  datatype Block =
    | GraphicBlock(control: Option<GraphicControl>, rendering: Rendering)
    | CommentExtension(comments: seq<CommentBlock>)
    | ApplicationExtension(application: Application)
    | PlainTextExtension(plainText: PlainText)

  datatype Gif = Gif(header: Header, logicalScreen: LogicalScreen, data: seq<Block>)

  /** `toUnsigned([a, b])`: `(b << 8) | a`. */
  function ToUnsigned(pair: seq<byte>): (v: nat)
    requires |pair| == 2
    ensures v == LeUint(pair) && v < 65536
  {
    LeUint2(pair);
    pair[1] as int * 256 + pair[0] as int
  }

  /** The header version pattern `[0-9]{2}[a-z]` on a three-character string. */
  predicate IsVersion(v: seq<byte>)
    requires |v| == 3
  {
    48 <= v[0] <= 57 && 48 <= v[1] <= 57 && 97 <= v[2] <= 122
  }

  // ---------------------------------------------------------------- header

  function HeaderAt(b: seq<byte>, o: nat): (r: Result<Parsed<Header>>)
    ensures r.Ok? <==> o + 6 <= |b| && b[o..o + 3] == [71, 73, 70] && IsVersion(b[o + 3..o + 6])
    ensures r.Ok? ==> r.value.end == o + 6 && r.value.value == Header("GIF", Ascii(b[o + 3..o + 6]))
    ensures o + 6 > |b| ==> r == Err(RangeError)
    ensures o + 6 <= |b| && b[o..o + 3] != [71, 73, 70] ==> r == Err(BadSignature)
  {
    var signature :- SliceAt(b, o, 3);
    var version :- SliceAt(b, o + 3, 3);
    AsciiIsGif(signature);
    if Ascii(signature) != "GIF" then Err(BadSignature)
    else if !IsVersion(version) then Err(BadVersion)
    else Ok(Parsed(Header(Ascii(signature), Ascii(version)), o + 6))
  }

  lemma AsciiIsGif(s: seq<byte>)
    ensures Ascii(s) == "GIF" <==> s == [71, 73, 70]
  {
    if s == [71, 73, 70] {
      assert Ascii(s) == "GIF";
    }
  }

  // ---------------------------------------------------------------- packed fields

  /** The logical screen descriptor's packed byte put back together from its fields. */
  function PackScreenFields(globalColorTableFlag: bool, colorResolution: nat, sortFlag: bool, size: nat): nat
  {
    (if globalColorTableFlag then 128 else 0) + colorResolution * 16 + (if sortFlag then 8 else 0) + size
  }

  /** The image descriptor's packed byte put back together from its fields and the two
      reserved bits the parser drops. */
  function PackImageFields(localColorTableFlag: bool, interlaceFlag: bool, sortFlag: bool, reserved: nat, size: nat): nat
  {
    (if localColorTableFlag then 128 else 0) + (if interlaceFlag then 64 else 0)
    + (if sortFlag then 32 else 0) + reserved * 8 + size
  }

  /** The graphic control extension's packed byte put back together from the three reserved
      bits the parser drops and its fields. */
  function PackControlFields(reserved: nat, disposalMethod: nat, userInputFlag: bool, transparentColorFlag: bool): nat
  {
    reserved * 32 + disposalMethod * 4 + (if userInputFlag then 2 else 0) + (if transparentColorFlag then 1 else 0)
  }

  lemma ScreenFieldsRepack(p: byte)
    ensures PackScreenFields(p / 128 == 1, (p / 16) % 8, (p / 8) % 2 == 1, p % 8) == p
  {
  }

  lemma ImageFieldsRepack(p: byte)
    ensures PackImageFields(p / 128 == 1, (p / 64) % 2 == 1, (p / 32) % 2 == 1, (p / 8) % 4, p % 8) == p
  {
  }

  lemma ControlFieldsRepack(p: byte)
    ensures PackControlFields(p / 32, (p / 4) % 8, (p / 2) % 2 == 1, p % 2 == 1) == p
  {
    var low := p % 32;
    assert p == 32 * (p / 32) + low;
    assert p / 4 == 8 * (p / 32) + low / 4;
    assert (p / 4) % 8 == low / 4;
    assert (p / 2) % 2 == (low % 4) / 2 && p % 2 == low % 2;
  }

  // ---------------------------------------------------------------- logical screen

  function ScreenDescriptorAt(b: seq<byte>, o: nat): (r: Result<Parsed<ScreenDescriptor>>)
    ensures r.Ok? <==> o + 7 <= |b|
    ensures r.Ok? ==> r.value.end == o + 7
    ensures r.Ok? ==>
      var d := r.value.value;
      && d.width == LeUint(b[o..o + 2]) && d.height == LeUint(b[o + 2..o + 4])
      && d.colorResolution < 8 && d.sizeOfGlobalColorTable < 8
      && PackScreenFields(d.globalColorTableFlag, d.colorResolution, d.sortFlag, d.sizeOfGlobalColorTable) == b[o + 4]
      && d.backgroundColorIndex == b[o + 5] && d.pixelAspectRatio == b[o + 6]
  {
    var width :- SliceAt(b, o, 2);
    var height :- SliceAt(b, o + 2, 2);
    var packed :- ByteAt(b, o + 4);
    var background :- ByteAt(b, o + 5);
    var aspect :- ByteAt(b, o + 6);
    ScreenFieldsRepack(packed);
    Ok(Parsed(ScreenDescriptor(ToUnsigned(width), ToUnsigned(height),
                               packed / 128 == 1, (packed / 16) % 8, (packed / 8) % 2 == 1, packed % 8,
                               background, aspect), o + 7))
  }

  /** The `n` RGB triples of a colour table, read three bytes at a time. */
  function ColorEntriesAt(b: seq<byte>, o: nat, n: nat): (r: Result<Parsed<seq<Rgb>>>)
    requires o <= |b|
    ensures r.Ok? <==> o + 3 * n <= |b|
    ensures r.Err? ==> r.error == RangeError
    ensures r.Ok? ==> r.value.end == o + 3 * n && |r.value.value| == n
    ensures r.Ok? ==> forall i :: 0 <= i < n ==>
      r.value.value[i] == Rgb(b[o + 3 * i], b[o + 3 * i + 1], b[o + 3 * i + 2])
    decreases n
  {
    if n == 0 then Ok(Parsed([], o))
    else
      var rgb :- SliceAt(b, o, 3);
      var rest :- ColorEntriesAt(b, o + 3, n - 1);
      Ok(Parsed([Rgb(rgb[0], rgb[1], rgb[2])] + rest.value, rest.end))
  }

  /** `parseColorTable`: no table for size -1, otherwise 2^(size + 1) entries. */
  function ColorTableAt(b: seq<byte>, o: nat, size: int): (r: Result<Parsed<seq<Rgb>>>)
    requires o <= |b| && size >= -1
    ensures size == -1 ==> r == Ok(Parsed([], o))
    ensures size >= 0 ==> (r.Ok? <==> o + 3 * Pow2(size + 1) <= |b|)
    ensures size >= 0 && r.Ok? ==>
      |r.value.value| == Pow2(size + 1) && r.value.end == o + 3 * Pow2(size + 1)
  {
    if size == -1 then Ok(Parsed([], o)) else ColorEntriesAt(b, o, Pow2(size + 1))
  }

  function LogicalScreenAt(b: seq<byte>, o: nat): (r: Result<Parsed<LogicalScreen>>)
    ensures r.Ok? ==> o + 7 <= r.value.end <= |b|
    ensures r.Ok? ==> (|r.value.value.globalColorTable| ==
      if r.value.value.descriptor.globalColorTableFlag then Pow2(r.value.value.descriptor.sizeOfGlobalColorTable + 1) else 0)
  {
    var d :- ScreenDescriptorAt(b, o);
    var table :- ColorTableAt(b, d.end, if d.value.globalColorTableFlag then d.value.sizeOfGlobalColorTable else -1);
    Ok(Parsed(LogicalScreen(d.value, table.value), table.end))
  }

  // ---------------------------------------------------------------- sub-blocks

  /** A sub-block holds what a read of its length returns at its offset. */
  predicate HoldsBytes(b: seq<byte>, block: SubBlock)
  {
    && 1 <= block.length && block.offset + block.length <= |b|
    && block.data == (if block.length == 1 then One(b[block.offset])
                      else Many(b[block.offset..block.offset + block.length]))
  }

  function Total(blocks: seq<SubBlock>): nat
  {
    if blocks == [] then 0 else Total(blocks[..|blocks| - 1]) + blocks[|blocks| - 1].length
  }

  /** A chain of sub-blocks up to its zero terminator, starting at a size byte. Read as text
      (the comment extension), a one-byte block fails: `read(1)` gives a number, which has no
      `map`. */
  function SubBlocksAt(b: seq<byte>, o: nat, text: bool): (r: Result<Parsed<seq<SubBlock>>>)
    ensures r.Ok? ==> o < r.value.end <= |b|
    ensures r.Ok? ==> forall i :: 0 <= i < |r.value.value| ==>
      HoldsBytes(b, r.value.value[i]) && o < r.value.value[i].offset && (text ==> r.value.value[i].data.Many?)
    decreases |b| - o, 1
  {
    if o >= |b| then Err(EndOfBuffer)
    else if b[o] == BLOCK_TERMINATOR then Ok(Parsed([], o + 1))
    else SubBlocksFrom(b, o, text)
  }

  /** The chain at a size byte that is not the terminator: the sub-block it announces, then
      the rest of the chain. */
  function SubBlocksFrom(b: seq<byte>, o: nat, text: bool): (r: Result<Parsed<seq<SubBlock>>>)
    requires o < |b| && b[o] != BLOCK_TERMINATOR
    ensures r.Ok? ==> o < r.value.end <= |b|
    ensures r.Ok? ==> forall i :: 0 <= i < |r.value.value| ==>
      HoldsBytes(b, r.value.value[i]) && o < r.value.value[i].offset && (text ==> r.value.value[i].data.Many?)
    decreases |b| - o, 0
  {
      var got := ReadAt(b, o + 1, b[o]);
      if got.Err? then Err(got.error)
      else if text && got.value.value.One? then Err(TypeError)
      else
        var block := SubBlock(got.value.value, b[o], o + 1);
        var rest := SubBlocksAt(b, got.value.end, text);
        if rest.Err? then rest
        else
          SubBlocksCons(b, o, text, block, rest.value);
          Ok(Parsed([block] + rest.value.value, rest.value.end))
  }

  lemma SubBlocksCons(b: seq<byte>, o: nat, text: bool, block: SubBlock, rest: Parsed<seq<SubBlock>>)
    requires HoldsBytes(b, block) && block.offset == o + 1 && (text ==> block.data.Many?)
    requires forall i :: 0 <= i < |rest.value| ==>
      HoldsBytes(b, rest.value[i]) && block.offset + block.length < rest.value[i].offset
      && (text ==> rest.value[i].data.Many?)
    ensures var blocks := [block] + rest.value;
      forall i :: 0 <= i < |blocks| ==>
        HoldsBytes(b, blocks[i]) && o < blocks[i].offset && (text ==> blocks[i].data.Many?)
  {
    var blocks := [block] + rest.value;
    assert forall i :: 0 < i < |blocks| ==> blocks[i] == rest.value[i - 1];
  }

  /** A chain takes its size bytes, its payloads and the terminator, and nothing else. */
  lemma {:induction false} SubBlocksEnd(b: seq<byte>, o: nat, text: bool)
    requires SubBlocksAt(b, o, text).Ok?
    ensures SubBlocksAt(b, o, text).value.end
         == o + 1 + |SubBlocksAt(b, o, text).value.value| + Total(SubBlocksAt(b, o, text).value.value)
    decreases |b| - o
  {
    if b[o] != BLOCK_TERMINATOR {
      var got := ReadAt(b, o + 1, b[o]);
      SubBlocksEnd(b, got.value.end, text);
      TotalCons(SubBlock(got.value.value, b[o], o + 1), SubBlocksAt(b, got.value.end, text).value.value);
    }
  }

  /** One turn of the sub-block loop, at a non-zero size byte. */
  lemma SubBlocksStep(b: seq<byte>, o: nat, text: bool)
    requires o < |b| && b[o] != BLOCK_TERMINATOR
    ensures var got := ReadAt(b, o + 1, b[o]);
      && (got.Err? ==> SubBlocksAt(b, o, text) == Err(got.error))
      && (got.Ok? && text && got.value.value.One? ==> SubBlocksAt(b, o, text) == Err(TypeError))
      && (got.Ok? && !(text && got.value.value.One?) ==>
            SubBlocksAt(b, o, text)
            == Prepend([SubBlock(got.value.value, b[o], o + 1)], SubBlocksAt(b, got.value.end, text)))
  {
  }

  lemma {:induction false} TotalCons(block: SubBlock, blocks: seq<SubBlock>)
    ensures Total([block] + blocks) == block.length + Total(blocks)
    decreases |blocks|
  {
    if blocks != [] {
      var all := [block] + blocks;
      assert all[..|all| - 1] == [block] + blocks[..|blocks| - 1];
      TotalCons(block, blocks[..|blocks| - 1]);
    } else {
      assert [block] + blocks == [block];
      assert [block][..0] == [];
    }
  }

  /** The image buffer: the payloads of the sub-blocks one after the other. */
  function Payload(blocks: seq<SubBlock>): seq<byte>
  {
    if blocks == [] then []
    else
      Payload(blocks[..|blocks| - 1])
      + match blocks[|blocks| - 1].data
        case One(x) => [x]
        case Many(s) => s
        case Undefined => []
  }

  /** The buffer as `parseImageData` fills it: `buffer.set(data, offset)` with a bare number as
      `data` copies nothing, so a one-byte block leaves its slot at zero. */
  function PayloadAsWritten(blocks: seq<SubBlock>): seq<byte>
  {
    if blocks == [] then []
    else
      PayloadAsWritten(blocks[..|blocks| - 1])
      + match blocks[|blocks| - 1].data
        case One(_) => [0]
        case Many(s) => s
        case Undefined => []
  }

  lemma {:induction false} PayloadLength(b: seq<byte>, blocks: seq<SubBlock>)
    requires forall i :: 0 <= i < |blocks| ==> HoldsBytes(b, blocks[i])
    ensures |Payload(blocks)| == Total(blocks)
    decreases |blocks|
  {
    if blocks != [] {
      PayloadLength(b, blocks[..|blocks| - 1]);
    }
  }

  /** The buffer is the in-order concatenation of the sub-blocks' bytes: block i sits in it at
      the sum of the lengths before it. */
  lemma {:induction false} PayloadIsConcatenation(b: seq<byte>, blocks: seq<SubBlock>, i: nat)
    requires forall k :: 0 <= k < |blocks| ==> HoldsBytes(b, blocks[k])
    requires i < |blocks|
    ensures HoldsBytes(b, blocks[i])
    ensures Total(blocks[..i]) + blocks[i].length <= Total(blocks) == |Payload(blocks)|
    ensures Payload(blocks)[Total(blocks[..i])..Total(blocks[..i]) + blocks[i].length]
         == b[blocks[i].offset..blocks[i].offset + blocks[i].length]
  {
    var upTo := blocks[..i + 1];
    assert upTo[..i] == blocks[..i] && upTo[i] == blocks[i];
    PayloadPrefix(b, blocks, i + 1);
    PayloadLength(b, blocks);
    PayloadLength(b, blocks[..i]);
    PayloadLast(b, upTo);
    var (x, bytes) := (Total(blocks[..i]), b[blocks[i].offset..blocks[i].offset + blocks[i].length]);
    assert Payload(upTo) == Payload(blocks[..i]) + bytes;
    assert Total(upTo) == x + blocks[i].length;
    assert Payload(upTo)[x..] == bytes;
    assert Payload(blocks)[x..x + blocks[i].length] == Payload(upTo)[x..];
  }

  /** The first `n` sub-blocks fill the start of the buffer. */
  lemma {:induction false} PayloadPrefix(b: seq<byte>, blocks: seq<SubBlock>, n: nat)
    requires forall k :: 0 <= k < |blocks| ==> HoldsBytes(b, blocks[k])
    requires n <= |blocks|
    ensures Total(blocks[..n]) <= |Payload(blocks)|
    ensures Payload(blocks)[..Total(blocks[..n])] == Payload(blocks[..n])
    decreases |blocks|
  {
    PayloadLength(b, blocks);
    if n == |blocks| {
      assert blocks[..n] == blocks;
    } else {
      var init := blocks[..|blocks| - 1];
      PayloadPrefix(b, init, n);
      assert init[..n] == blocks[..n];
      PayloadLast(b, blocks);
      PayloadLength(b, init);
      var bytes := b[blocks[|blocks| - 1].offset..blocks[|blocks| - 1].offset + blocks[|blocks| - 1].length];
      assert (Payload(init) + bytes)[..Total(init[..n])] == Payload(init)[..Total(init[..n])];
    }
  }

  /** The last sub-block adds its bytes to the end of the buffer. */
  lemma PayloadLast(b: seq<byte>, blocks: seq<SubBlock>)
    requires blocks != [] && HoldsBytes(b, blocks[|blocks| - 1])
    ensures var last := blocks[|blocks| - 1];
      Payload(blocks) == Payload(blocks[..|blocks| - 1]) + b[last.offset..last.offset + last.length]
  {
    var last := blocks[|blocks| - 1];
    if last.length == 1 {
      assert b[last.offset..last.offset + 1] == [b[last.offset]];
    }
  }

  /** Where no sub-block is one byte long the buffer as written is the intended one. */
  lemma {:induction false} PayloadAsWrittenAgrees(blocks: seq<SubBlock>)
    requires forall i :: 0 <= i < |blocks| ==> !blocks[i].data.One?
    ensures PayloadAsWritten(blocks) == Payload(blocks)
    decreases |blocks|
  {
    if blocks != [] {
      PayloadAsWrittenAgrees(blocks[..|blocks| - 1]);
    }
  }

  /** Image data with minimum code size 2 and the single one-byte sub-block [7]: the intended
      buffer is [7], the buffer as written is [0]. */
  lemma PayloadAsWrittenLosesOneByteBlocks()
    ensures SubBlocksAt([2, 1, 7, 0], 1, false) == Ok(Parsed([SubBlock(One(7), 1, 2)], 4))
    ensures ImageDataAt([2, 1, 7, 0], 0) == Ok(Parsed(ImageData([BlockSpan(1, 2)], [7], 2), 4))
    ensures PayloadAsWritten([SubBlock(One(7), 1, 2)]) == [0]
  {
    var b: seq<byte> := [2, 1, 7, 0];
    var block := SubBlock(One(7), 1, 2);
    assert ReadAt(b, 2, 1) == Ok(Parsed(One(7), 3));
    assert SubBlocksAt(b, 3, false) == Ok(Parsed([], 4));
    assert [block] + [] == [block];
    assert SubBlocksAt(b, 1, false) == Ok(Parsed([block], 4));
    assert [block][..0] == [];
    assert Payload([block]) == [7];
    assert Spans([block]) == [BlockSpan(1, 2)];
  }

  function Spans(blocks: seq<SubBlock>): (spans: seq<BlockSpan>)
    ensures |spans| == |blocks|
    ensures forall i :: 0 <= i < |blocks| ==> spans[i] == BlockSpan(blocks[i].length, blocks[i].offset)
  {
    seq(|blocks|, i requires 0 <= i < |blocks| => BlockSpan(blocks[i].length, blocks[i].offset))
  }

  /** `parseImageData`, with the buffer filled as intended (see `PayloadAsWritten`). */
  function ImageDataAt(b: seq<byte>, o: nat): (r: Result<Parsed<ImageData>>)
    ensures r.Ok? ==> o + 1 < r.value.end <= |b| && r.value.value.lzwMinimumCodeSize == b[o]
    ensures r.Ok? ==> |r.value.value.buffer| + |r.value.value.blocks| + o + 2 == r.value.end
  {
    var minimumCodeSize :- ByteAt(b, o);
    var chain :- SubBlocksAt(b, o + 1, false);
    SubBlocksEnd(b, o + 1, false);
    PayloadLength(b, chain.value);
    Ok(Parsed(ImageData(Spans(chain.value), Payload(chain.value), minimumCodeSize), chain.end))
  }

  // ---------------------------------------------------------------- extensions

  /** `assertExtension`: an introducer then the expected label. */
  function ExtensionAt(b: seq<byte>, o: nat, expected: byte): (r: Result<()>)
    ensures r.Ok? <==> o + 2 <= |b| && b[o] == EXTENSION_INTRODUCER && b[o + 1] == expected
  {
    var pair :- SliceAt(b, o, 2);
    if pair[0] != EXTENSION_INTRODUCER then Err(ExpectedIntroducer)
    else if pair[1] != expected then Err(ExpectedLabel)
    else Ok(())
  }

  function GraphicControlAt(b: seq<byte>, o: nat): (r: Result<Parsed<GraphicControl>>)
    ensures r.Ok? <==>
      && o + 8 <= |b| && b[o] == EXTENSION_INTRODUCER && b[o + 1] == GRAPHIC_CONTROL_EXTENSION_LABEL
      && b[o + 2] == 4 && b[o + 7] == BLOCK_TERMINATOR
    ensures (o + 3 <= |b| && b[o] == EXTENSION_INTRODUCER && b[o + 1] == GRAPHIC_CONTROL_EXTENSION_LABEL
             && b[o + 2] != 4) ==> r == Err(BadBlockSize)
    ensures r.Ok? ==> r.value.end == o + 8
    ensures r.Ok? ==>
      var c := r.value.value;
      && c.disposalMethod < 8
      && PackControlFields(b[o + 3] / 32, c.disposalMethod, c.userInputFlag, c.transparentColorFlag) == b[o + 3]
      && c.delayTime == LeUint(b[o + 4..o + 6]) && c.transparentColorIndex == b[o + 6]
  {
    var _ :- ExtensionAt(b, o, GRAPHIC_CONTROL_EXTENSION_LABEL);
    var blockSize :- ByteAt(b, o + 2);
    if blockSize != 4 then Err(BadBlockSize)
    else
      var packed :- ByteAt(b, o + 3);
      ControlFieldsRepack(packed);
      var delay :- SliceAt(b, o + 4, 2);
      var index :- ByteAt(b, o + 6);
      var terminator :- ByteAt(b, o + 7);
      if terminator != BLOCK_TERMINATOR then Err(MissingTerminator)
      else Ok(Parsed(GraphicControl((packed / 4) % 8, (packed / 2) % 2 == 1, packed % 2 == 1,
                                    ToUnsigned(delay), index), o + 8))
  }

  function PlainTextAt(b: seq<byte>, o: nat): (r: Result<Parsed<PlainText>>)
    ensures r.Ok? ==>
      && o + 15 < r.value.end <= |b|
      && b[o] == EXTENSION_INTRODUCER && b[o + 1] == PLAIN_TEXT_EXTENSION_LABEL && b[o + 2] == 12
    ensures (o + 3 <= |b| && b[o] == EXTENSION_INTRODUCER && b[o + 1] == PLAIN_TEXT_EXTENSION_LABEL
             && b[o + 2] != 12) ==> r == Err(BadBlockSize)
    ensures r.Ok? ==>
      var t := r.value.value;
      && t.textGridLeftPosition == LeUint(b[o + 3..o + 5]) && t.textGridTopPosition == LeUint(b[o + 5..o + 7])
      && t.textGridWidth == LeUint(b[o + 7..o + 9]) && t.textGridHeight == LeUint(b[o + 9..o + 11])
      && t.characterCellWidth == b[o + 11] && t.characterCellHeight == b[o + 12]
      && t.textForegroundColorIndex == b[o + 13] && t.textBackgroundColorIndex == b[o + 14]
      && SubBlocksAt(b, o + 15, false) == Ok(Parsed(t.blocks, r.value.end))
  {
    var _ :- ExtensionAt(b, o, PLAIN_TEXT_EXTENSION_LABEL);
    var blockSize :- ByteAt(b, o + 2);
    if blockSize != 12 then Err(BadBlockSize)
    else PlainTextBodyAt(b, o + 3)
  }

  /** What follows the block size of a plain text extension: the text grid, the character
      cell, the two colour indexes and the text's sub-blocks. */
  function PlainTextBodyAt(b: seq<byte>, p: nat): (r: Result<Parsed<PlainText>>)
    ensures r.Ok? ==> p + 12 < r.value.end <= |b|
  {
    var grid :- RectangleAt(b, p);
    var (left, top, width, height) := grid.value;
    var cellWidth :- ByteAt(b, p + 8);
    var cellHeight :- ByteAt(b, p + 9);
    var foreground :- ByteAt(b, p + 10);
    var background :- ByteAt(b, p + 11);
    var chain :- SubBlocksAt(b, p + 12, false);
    Ok(Parsed(PlainText(left, top, width, height, cellWidth, cellHeight, foreground, background, chain.value),
              chain.end))
  }

  /** Left and top positions, width and height: four 16-bit numbers, as an image descriptor
      and a plain text extension both read them. */
  function RectangleAt(b: seq<byte>, p: nat): (r: Result<Parsed<(nat, nat, nat, nat)>>)
    ensures r.Ok? <==> p + 8 <= |b|
    ensures r.Ok? ==> r.value.end == p + 8
    ensures r.Err? ==> r.error == RangeError
  {
    var left :- SliceAt(b, p, 2);
    var top :- SliceAt(b, p + 2, 2);
    var width :- SliceAt(b, p + 4, 2);
    var height :- SliceAt(b, p + 6, 2);
    Ok(Parsed((ToUnsigned(left), ToUnsigned(top), ToUnsigned(width), ToUnsigned(height)), p + 8))
  }

  function AsComment(block: SubBlock): CommentBlock
    requires block.data.Many?
  {
    CommentBlock(Ascii(block.data.s), block.length, block.offset)
  }

  function CommentAt(b: seq<byte>, o: nat): (r: Result<Parsed<seq<CommentBlock>>>)
    ensures r.Ok? ==> o + 2 < r.value.end <= |b|
    ensures r.Ok? ==> forall i :: 0 <= i < |r.value.value| ==>
      var c := r.value.value[i];
      2 <= c.length && c.offset + c.length <= |b| && c.data == Ascii(b[c.offset..c.offset + c.length])
  {
    var _ :- ExtensionAt(b, o, COMMENT_EXTENSION_LABEL);
    var chain :- SubBlocksAt(b, o + 2, true);
    var blocks := chain.value;
    Ok(Parsed(seq(|blocks|, i requires 0 <= i < |blocks| => AsComment(blocks[i])), chain.end))
  }

  /** The application data bytes up to and including the next extension introducer. */
  function ApplicationDataAt(b: seq<byte>, o: nat): (r: Result<Parsed<seq<byte>>>)
    ensures r.Ok? ==> r.value.end == o + |r.value.value| + 1 <= |b|
    decreases |b| - o
  {
    var data :- ByteAt(b, o);
    if data == EXTENSION_INTRODUCER then Ok(Parsed([], o + 1))
    else
      var rest :- ApplicationDataAt(b, o + 1);
      Ok(Parsed([data] + rest.value, rest.end))
  }

  /** The scan succeeds exactly when an introducer follows, and yields the bytes before the
      first one. */
  lemma {:induction false} ApplicationDataScan(b: seq<byte>, o: nat)
    ensures ApplicationDataAt(b, o).Ok? <==> exists k :: o <= k < |b| && b[k] == EXTENSION_INTRODUCER
    ensures ApplicationDataAt(b, o).Ok? ==>
      var p := ApplicationDataAt(b, o).value;
      && p.value == b[o..p.end - 1] && b[p.end - 1] == EXTENSION_INTRODUCER
      && EXTENSION_INTRODUCER !in p.value
    decreases |b| - o
  {
    if o < |b| && b[o] != EXTENSION_INTRODUCER {
      ApplicationDataScan(b, o + 1);
      var r := ApplicationDataAt(b, o);
      if r.Ok? {
        var rest := ApplicationDataAt(b, o + 1).value;
        assert b[o..rest.end - 1] == [b[o]] + b[o + 1..rest.end - 1];
      }
      if exists k :: o <= k < |b| && b[k] == EXTENSION_INTRODUCER {
        var k :| o <= k < |b| && b[k] == EXTENSION_INTRODUCER;
        assert o + 1 <= k;
      }
    }
  }

  function ApplicationAt(b: seq<byte>, o: nat): (r: Result<Parsed<Application>>)
    ensures r.Ok? ==> o + 15 <= r.value.end <= |b|
    ensures r.Ok? ==>
      && b[o + 2] == 11
      && r.value.value.applicationIdentifier == Ascii(b[o + 3..o + 11])
      && r.value.value.applicationAuthenticationCode == b[o + 11..o + 14]
      && r.value.value.applicationData == b[o + 14..r.value.end - 1]
      && EXTENSION_INTRODUCER !in r.value.value.applicationData
    // either the introducer was the last byte read, or a zero just before it was taken for a
    // block terminator and the cursor was put back onto the introducer
    ensures r.Ok? ==>
      || b[r.value.end - 1] == EXTENSION_INTRODUCER
      || (r.value.end < |b| && b[r.value.end] == EXTENSION_INTRODUCER && b[r.value.end - 1] == BLOCK_TERMINATOR)
    ensures (o + 3 <= |b| && b[o] == EXTENSION_INTRODUCER && b[o + 1] == APPLICATION_EXTENSION_LABEL
             && b[o + 2] != 11) ==> r == Err(BadBlockSize)
  {
    var _ :- ExtensionAt(b, o, APPLICATION_EXTENSION_LABEL);
    var blockSize :- ByteAt(b, o + 2);
    if blockSize != 11 then Err(BadBlockSize)
    else
      var identifier :- SliceAt(b, o + 3, 8);
      var authentication :- SliceAt(b, o + 11, 3);
      var scan :- ApplicationDataAt(b, o + 14);
      ApplicationDataScan(b, o + 14);
      var data := scan.value;
      if |data| > 0 && data[|data| - 1] == BLOCK_TERMINATOR then
        // the terminator is dropped and the cursor goes back onto the introducer
        Ok(Parsed(Application(Ascii(identifier), authentication, data[..|data| - 1]), scan.end - 1))
      else
        Ok(Parsed(Application(Ascii(identifier), authentication, data), scan.end))
  }

  // ---------------------------------------------------------------- images and graphic blocks

  function ImageDescriptorAt(b: seq<byte>, o: nat): (r: Result<Parsed<ImageDescriptor>>)
    ensures r.Ok? <==> o + 10 <= |b| && b[o] == IMAGE_SEPARATOR
    ensures o < |b| && b[o] != IMAGE_SEPARATOR ==> r == Err(ExpectedImageSeparator)
    ensures r.Ok? ==> r.value.end == o + 10
    ensures r.Ok? ==>
      var d := r.value.value;
      && d.imageLeftPosition == LeUint(b[o + 1..o + 3]) && d.imageTopPosition == LeUint(b[o + 3..o + 5])
      && d.imageWidth == LeUint(b[o + 5..o + 7]) && d.imageHeight == LeUint(b[o + 7..o + 9])
      && d.sizeOfLocalColorTable < 8
      && PackImageFields(d.localColorTableFlag, d.interlaceFlag, d.sortFlag, (b[o + 9] / 8) % 4,
                         d.sizeOfLocalColorTable) == b[o + 9]
  {
    var separator :- ByteAt(b, o);
    if separator != IMAGE_SEPARATOR then Err(ExpectedImageSeparator)
    else
      var rectangle :- RectangleAt(b, o + 1);
      var (left, top, width, height) := rectangle.value;
      var packed :- ByteAt(b, o + 9);
      ImageFieldsRepack(packed);
      Ok(Parsed(ImageDescriptor(left, top, width, height,
                                packed / 128 == 1, (packed / 64) % 2 == 1, (packed / 32) % 2 == 1, packed % 8),
                o + 10))
  }

  function TableBasedImageAt(b: seq<byte>, o: nat): (r: Result<Parsed<TableBasedImage>>)
    ensures r.Ok? ==> o + 12 <= r.value.end <= |b|
    ensures r.Ok? ==> (|r.value.value.localColorTable| ==
      if r.value.value.descriptor.localColorTableFlag then Pow2(r.value.value.descriptor.sizeOfLocalColorTable + 1) else 0)
  {
    var d :- ImageDescriptorAt(b, o);
    var table :- ColorTableAt(b, d.end, if d.value.localColorTableFlag then d.value.sizeOfLocalColorTable else -1);
    var data :- ImageDataAt(b, table.end);
    Ok(Parsed(TableBasedImage(d.value, table.value, data.value), data.end))
  }

  /** `parseGraphicRenderingBlock`: a peek decides between plain text and an image. */
  function RenderingAt(b: seq<byte>, o: nat): (r: Result<Parsed<Rendering>>)
    ensures r.Ok? ==> o < r.value.end <= |b|
    ensures r.Ok? ==> (r.value.value.PlainTextRendering? <==> b[o] == EXTENSION_INTRODUCER)
    ensures r.Ok? ==> (r.value.value.ImageRendering? <==> b[o] == IMAGE_SEPARATOR)
    ensures o < |b| && b[o] != EXTENSION_INTRODUCER && b[o] != IMAGE_SEPARATOR ==> r == Err(ExpectedImageOrExtension)
  {
    var peek :- ByteAt(b, o);
    if peek == EXTENSION_INTRODUCER then
      var text :- PlainTextAt(b, o);
      Ok(Parsed(PlainTextRendering(text.value), text.end))
    else if peek == IMAGE_SEPARATOR then
      var image :- TableBasedImageAt(b, o);
      Ok(Parsed(ImageRendering(image.value), image.end))
    else Err(ExpectedImageOrExtension)
  }

  /** `parseGraphicBlock`: a graphic control extension exactly when the first byte is an
      extension introducer, then a rendering block. */
  function GraphicBlockAt(b: seq<byte>, o: nat): (r: Result<Parsed<Block>>)
    ensures r.Ok? ==> o < r.value.end <= |b| && r.value.value.GraphicBlock?
    ensures r.Ok? ==> (r.value.value.control.Some? <==> b[o] == EXTENSION_INTRODUCER)
  {
    var peek :- ByteAt(b, o);
    if peek == EXTENSION_INTRODUCER then
      var control :- GraphicControlAt(b, o);
      var rendering :- RenderingAt(b, control.end);
      Ok(Parsed(GraphicBlock(Some(control.value), rendering.value), rendering.end))
    else
      var rendering :- RenderingAt(b, o);
      Ok(Parsed(GraphicBlock(None, rendering.value), rendering.end))
  }

  // ---------------------------------------------------------------- the stream

  /** One step of `parseData` at an offset before the last two bytes: the item there. */
  function DataBlockAt(b: seq<byte>, o: nat): (r: Result<Parsed<Block>>)
    requires o + 2 < |b|
    ensures r.Ok? ==> o < r.value.end <= |b|
    ensures b[o] != IMAGE_SEPARATOR && b[o + 1] !in {APPLICATION_EXTENSION_LABEL, COMMENT_EXTENSION_LABEL,
                                                       GRAPHIC_CONTROL_EXTENSION_LABEL, PLAIN_TEXT_EXTENSION_LABEL}
            ==> r == Err(UnknownLabel)
    ensures r.Ok? && b[o] == IMAGE_SEPARATOR ==> r.value.value.GraphicBlock? && r.value.value.control.None?
  {
    if b[o] == IMAGE_SEPARATOR then GraphicBlockAt(b, o)
    else if b[o + 1] == APPLICATION_EXTENSION_LABEL then
      var app :- ApplicationAt(b, o);
      Ok(Parsed(ApplicationExtension(app.value), app.end))
    else if b[o + 1] == COMMENT_EXTENSION_LABEL then
      var comment :- CommentAt(b, o);
      Ok(Parsed(CommentExtension(comment.value), comment.end))
    else if b[o + 1] == GRAPHIC_CONTROL_EXTENSION_LABEL then GraphicBlockAt(b, o)
    else if b[o + 1] == PLAIN_TEXT_EXTENSION_LABEL then
      var text :- PlainTextAt(b, o);
      Ok(Parsed(PlainTextExtension(text.value), text.end))
    else Err(UnknownLabel)
  }

  /** `parseData`: items until the offset reaches the last two bytes of the buffer. */
  function DataAt(b: seq<byte>, o: nat): (r: Result<Parsed<seq<Block>>>)
    requires o <= |b|
    ensures r.Ok? ==> o <= r.value.end <= |b| && |b| - 2 <= r.value.end
    ensures o + 2 >= |b| ==> r == Ok(Parsed([], o))
    decreases |b| - o
  {
    if o + 2 >= |b| then Ok(Parsed([], o))
    else
      var item :- DataBlockAt(b, o);
      Prepend([item.value], DataAt(b, item.end))
  }

  function TrailerAt(b: seq<byte>, o: nat): (r: Result<Parsed<()>>)
    ensures r.Ok? <==> o < |b| && b[o] == TRAILER_LABEL
    ensures r.Ok? ==> r.value.end == o + 1
  {
    var trailer :- ByteAt(b, o);
    if trailer != TRAILER_LABEL then Err(BadTrailer) else Ok(Parsed((), o + 1))
  }

  /** `parseGIFDataStream` on a whole buffer. */
  function GifAt(b: seq<byte>): (r: Result<Parsed<Gif>>)
  {
    var header :- HeaderAt(b, 0);
    var screen :- LogicalScreenAt(b, header.end);
    var data :- DataAt(b, screen.end);
    var trailer :- TrailerAt(b, data.end);
    Ok(Parsed(Gif(header.value, screen.value, data.value), trailer.end))
  }

  /** A stream is accepted only with its trailer in one of its last two bytes; the parse
      stops just after the trailer, so at most one byte is left unread. */
  lemma GifEndsAtTrailer(b: seq<byte>)
    requires GifAt(b).Ok?
    ensures |b| - 1 <= GifAt(b).value.end <= |b|
    ensures b[GifAt(b).value.end - 1] == TRAILER_LABEL
    ensures b[..6] == [71, 73, 70] + b[3..6] && IsVersion(b[3..6])
  {
    var header := HeaderAt(b, 0).value;
    var screen := LogicalScreenAt(b, header.end).value;
    var data := DataAt(b, screen.end).value;
    assert GifAt(b).value.end == data.end + 1;
  }
}
